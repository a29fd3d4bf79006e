# datalayer specs, modelled in Dafny

This project models the schema and validation engine of `datalayer`. A
schema is a tree of `Spec` nodes:

- `Atom` wraps a class.
- `Model` wraps an ordered mapping from field names to nodes.
- `Map` wraps a pair of key and value nodes.
- `Seq` wraps an element node.

Each node goes through two phases:

- **Construction** (`validate_spec`) turns a raw description into the node's
  wrapped value or raises a schema error. Bare classes are wrapped as Atoms
  by `_validate_spec_or_type`.
- **Validation** (`validate`) checks a runtime value against the tree.

`inner` and `innermost` walk the tree. `Spec.__eq__` compares two nodes by
their wrapped values. `from_python` picks the node class for raw data. The
project also models:

- the constructors of the two error classes in `exceptions.py`, each of
  which stores its spec and formats one message;
- the `typename` helper those messages use.

Modules, one file each:

- `Wrappers` (`wrappers.dfy`): `Option` and `Result`. A raised exception is
  a `Failure`.
- `Objects` (`objects.dfy`): a closed universe of Python classes and values.
  It covers `type`, `isinstance`, `issubclass` (including the
  `collections.abc` registrations), metaclasses, `__hash__ is None`, `hash`,
  dict lookup and iteration. The `Spec` tree lives here, because a Spec
  instance is itself a Python value.
- `Utils` (`utils.dfy`): `typename`.
- `Exceptions` (`exceptions.dfy`): `SpecError` and `ValidationError`.
- `Specs` (`specs.dfy`): the errors raised from `specs.py`, `base_type`,
  `inner()`, and the construction phase of every node kind.
- `Validation` (`validation.dfy`): `Spec.validate`, `Model.validate` and
  `Seq.validate`. It includes the in-place `Model.validate` on a mutable
  object, and the validation as the code is written (see Findings), with
  the in-place writes it makes.
- `Navigation` (`navigation.dfy`): `Model.inner` and `Spec.innermost`.
- `Equality` (`equality.dfy`): `Spec.__eq__`.
- `Dispatch` (`dispatch.dfy`): `from_python` and the module-level `example`.
- `Scenarios` (`scenarios.dfy`): the cases of `tests/test_specs.py`, each
  stated as a lemma.

### How the errors are modelled

An error raised from `specs.py` is a `SchemaError` or a `ValidationError`.
It records:

- the offending node: `Building(cls)` while the node of class `cls` is
  still under construction, `Node(s)` afterwards;
- a structured cause, such as a wrong type with the expected and actual
  names, too many or too few items with both counts, or a missing field.

Python itself raises two more errors that the model keeps:

- `AttributeError`: `Model()` of a value without `__dict__`, and the
  missing `.spec` in a cross-kind `==`;
- `TypeError`: an unhashable item passed to `Model.inner`. The model calls
  it `UnhashableTypeError`.

### Where the model follows the code rather than the documented design

- **Map validation.** `Map` defines no `validate`, so the inherited
  `Spec.validate` only checks that the value is a mapping. Every dict passes
  unchanged, and its keys and values are never checked (`Validation.MapValidate`).
  The documented design says each key and value is validated.
- **`from_python` on sequences.** `from_python` sends a list, tuple or str
  to `Seq(data)`. That call calls `_validate_spec_or_type` on the sequence
  itself, so it always raises a schema error (`Dispatch.FromPythonSequenceFails`).
  This is consistent with the second assertion of `test_from_python` being
  commented out.
- **The registry.** The registry is documented as a nearest-ancestor lookup.
  With only `Mapping` and `Sequence` registered, and no class being both
  (`Objects.MappingAndSequenceDisjoint`), it reduces to a case split.

## Model

| member | source | states |
|---|---|---|
| Utils.TypeName | datalayer/utils.py:1-5 | definition of typename, no contract of its own: the name of the class for a value whose class is `type`, else the name of the value's class; the lemmas below state what it gives |
| Utils.PlainClassNamedBySelf | datalayer/utils.py:1-5 | a class whose metaclass is exactly `type` is named by its own `__name__` |
| Utils.AbcClassNamedByMetaclass | datalayer/utils.py:3-5 | a class built by ABCMeta (Mapping, Sequence, Container, every Spec class) is named 'ABCMeta', because the test is identity with `type` |
| Utils.InstanceNamedByClass | datalayer/utils.py:3-5 | a value that is not a class is named by its class's `__name__` |
| Utils.InstanceAndPlainClassAgree | datalayer/utils.py:3-5 | for an instance of a plain class, typename(x) == typename(type(x)) |
| Utils.SpecInstanceAndClassDisagree | datalayer/utils.py:3-5 | a Spec instance is named by its class, but that class is named 'ABCMeta' |
| Utils.TypeNameExamples | tests/test_utils.py:27-31 | typename(str) == 'str', typename('foo') == 'str', and the same name for a user class and its instance |
| Exceptions.NewSpecError | datalayer/exceptions.py:11-13 | definition of the SpecError constructor, no contract of its own; SpecErrorStoresSpecAndMessage states what it builds |
| Exceptions.NewValidationError | datalayer/exceptions.py:19-21 | definition of the ValidationError constructor, no contract of its own; ValidationErrorStoresSpecAndMessage states what it builds |
| Exceptions.SpecErrorStoresSpecAndMessage | datalayer/exceptions.py:8-13 | SpecError keeps its spec unchanged; its message is "invalid spec: ", then typename(spec), then ": ", then msg, and msg can be read back from the message |
| Exceptions.ValidationErrorStoresSpecAndMessage | datalayer/exceptions.py:16-21 | the same for ValidationError, with the prefix "invalid value: " |
| Exceptions.DefaultDetailEndsWithSeparator | datalayer/exceptions.py:11-21 | with the default msg '', the message ends in ": " |
| Exceptions.ClassesDifferOnlyInPrefix | datalayer/exceptions.py:4-21 | a ValidationError equals the SpecError built from the same arguments, except for its class and its message prefix |
| Exceptions.MessageIdentifiesClass | datalayer/exceptions.py:13-21 | no SpecError message equals any ValidationError message |
| Specs.BaseType | datalayer/specs.py:22-25 | definition of base_type per node kind (the wrapped class, Mapping, Mapping, Sequence), no contract of its own; used by every validation lemma |
| Specs.Inner | datalayer/specs.py:40-42 | definition of inner(): the wrapped value as a Python value, no contract of its own; Navigation.ModelInnerWhole and InnermostStripsSeqs state what it gives |
| Specs.NewModel | datalayer/specs.py:93-110 | definition of Model.validate_spec, no contract of its own; NewModelFromDict, NewModelFromNamespace, NewModelRefusals and NewModelFirstFailure state what it gives |
| Specs.CoerceFields | datalayer/specs.py:105-110 | definition of the construction loop, no contract of its own; CoerceFieldsSucceeds, CoerceFieldsFirstFailure and CoerceFieldsShape state what it gives |
| Specs.Assign | datalayer/specs.py:109 | `validated_spec[key] = child` keeps the keys distinct and holds the new pair; an existing key keeps its position and a new key goes last |
| Specs.NewAtom | datalayer/specs.py:58-72 | Atom(x) succeeds iff x is a class that is not a Spec class, and then stores x; a Spec class or a Spec instance fails with "cannot be a Spec"; a non-class fails with a wrong-type error expecting 'type' |
| Specs.SpecOrType | datalayer/specs.py:78-87 | a class becomes Atom(class), which fails for a Spec class; a node is kept unchanged; anything else is a wrong-type schema error of the node under construction |
| Specs.ModelValidateSpec | datalayer/specs.py:93-110 | the construction loop over the entries returns exactly NewModel(raw) |
| Specs.FillFields | datalayer/specs.py:105-110 | the loop over the read entries, filling `validated_spec`, returns exactly the field coercion of those entries |
| Specs.CoerceFieldsSucceeds | datalayer/specs.py:105-109 | the field loop succeeds iff every key is exactly a str and every value is a class or a node |
| Specs.CoerceFieldsFirstFailure | datalayer/specs.py:106-109 | the first refused entry in description order is the one reported: a non-str key gives "keys must be str", otherwise the coercion error |
| Specs.NewModelFirstFailure | datalayer/specs.py:105-109 | a dict description is refused with the error of its first refused entry |
| Specs.CoerceFieldsShape | datalayer/specs.py:105-110 | with distinct keys, the loop appends one field per entry in order, named by the key and holding the coerced node |
| Specs.NewModelFromDict | datalayer/specs.py:93-110 | Model(dict) succeeds iff every key is a str and every value coerces; the fields are then the dict's keys in order, each bound to its coerced node |
| Specs.NewModelOf | datalayer/specs.py:105-110 | the Model a dict with distinct keys builds, given the node each value becomes |
| Specs.NewModelFromNamespace | datalayer/specs.py:101-103 | a SimpleNamespace gives the same Model as the dict of its attributes |
| Specs.NewModelRefusals | datalayer/specs.py:95-103 | a class is refused, expecting 'Mapping or object'; a value that is neither a mapping nor an object with attributes raises AttributeError on `__dict__` |
| Specs.NewMap | datalayer/specs.py:148-164 | Map(raw) succeeds iff raw is a 2-item sequence whose items both coerce, key first, and the key node's base type is hashable; the result is (key, value); any other raw is a wrong-type error expecting 'sequence with 2 items' |
| Specs.MapKeyMustBeHashable | datalayer/specs.py:160-162 | an unhashable key base type (dict, list, a Model or a Map key) is refused, naming the key node's class |
| Specs.NewSeq | datalayer/specs.py:170-172 | Seq(raw) succeeds iff raw is a node or a non-Spec class, and wraps the coerced element |
| Specs.ConstructWellFormed | datalayer/specs.py:16-17 | every node that construction returns is well-formed: no Atom of a Spec class, distinct field names, hashable Map keys, recursively |
| Specs.NewModelWellFormed | datalayer/specs.py:93-110 | Model construction gives a well-formed node |
| Specs.NewMapWellFormed | datalayer/specs.py:148-164 | Map construction gives a well-formed node |
| Specs.CoerceFieldsWellFormed | datalayer/specs.py:105-110 | the field loop keeps names distinct and children well-formed |
| Validation.Validate | datalayer/specs.py:31-178 | definition of `spec.validate(value)` for every node kind, corrected as under Findings, no contract of its own; the Validation lemmas below state what it gives |
| Validation.ValidateEntries | datalayer/specs.py:112-124 | definition of Model.validate's count checks, no contract of its own; ModelFailureOrder states them |
| Validation.RunFields | datalayer/specs.py:125-128 | definition of the field loop, no contract of its own; RunFieldsSucceeds, RunFieldsFirstFailure and RunFieldsKeepsKeys state what it gives |
| Validation.ValidateItems | datalayer/specs.py:177 | definition of the item pass, no contract of its own; ValidateItemsIff and ValidateItemsFirstFailure state what it gives |
| Validation.BaseCheck | datalayer/specs.py:31-38 | Spec.validate passes exactly the instances of the base type and returns them; otherwise it raises a ValidationError naming the expected and actual class |
| Validation.ModelValidateLeavesValue | datalayer/specs.py:125-130 | corrected, every field is written back with a value equal to the one it held, so the dict is left as it was whether the loop completes or stops |
| Validation.ValidateModel | datalayer/specs.py:112-130 | the in-place Model.validate returns the same object on success, overwrites its dict as the field loop does, and raises the error that Validate gives |
| Validation.ValidateReturnsInput | datalayer/specs.py:112-178 | a successful validation returns a value equal to its input, so already-valid input comes back equal to itself |
| Validation.RunFieldsKeepsEntries | datalayer/specs.py:125-128 | a field loop that succeeds leaves every entry as it was |
| Validation.ValidateItemsReturnInput | datalayer/specs.py:177 | a successful item pass returns the items unchanged |
| Validation.RunFieldsSucceeds | datalayer/specs.py:125-128 | the field loop succeeds iff every declared field from i on is present and passes its child |
| Validation.RunFieldsFirstFailure | datalayer/specs.py:125-128 | the first declared field that is missing or fails is the one raised |
| Validation.ModelValidateIff | datalayer/specs.py:112-130 | Model.validate succeeds iff the value is a dict with as many entries as declared fields, each declared field present and passing; the mapping then comes back unchanged |
| Validation.ModelAcceptsAll | datalayer/specs.py:112-130 | a mapping with one entry per field, every field passing, comes back unchanged |
| Validation.ModelFailureOrder | datalayer/specs.py:112-123 | in this order: a non-mapping fails expecting 'Mapping'; then more entries fail "too many items"; then fewer fail "too few items", each with both counts |
| Validation.ModelFirstFailure | datalayer/specs.py:125-128 | after the counts, the first declared field in schema order that is missing ("field not found") or fails its child is the error raised |
| Validation.RunFieldsKeepsKeys | datalayer/specs.py:125-128 | on success or failure, the loop keeps every key in its position and never changes an undeclared entry |
| Validation.MutatedKeepsKeys | datalayer/specs.py:125-130 | the dict Model.validate leaves behind has the same keys in the same positions, and only declared fields may hold new values |
| Validation.ValidateItemsIff | datalayer/specs.py:177 | every item passes iff the item pass succeeds; it then returns, in order, each item's validated result |
| Validation.ValidateItemsFirstFailure | datalayer/specs.py:177 | the first failing item aborts the pass with its error |
| Validation.SeqValidateIff | datalayer/specs.py:174-178 | Seq.validate succeeds iff the value is a sequence whose every item passes; it returns a container of the same class and length, holding each item's result in order |
| Validation.SeqFirstFailure | datalayer/specs.py:174-178 | the first failing item, in order, is the error raised |
| Validation.SeqAcceptsAll | datalayer/specs.py:174-178 | a sequence whose every item passes is accepted and comes back equal |
| Validation.SeqRejectsNonSequence | datalayer/specs.py:174-175 | a non-sequence fails expecting 'Sequence' before any item is looked at |
| Validation.AtomValidate | datalayer/specs.py:31-38 | Atom(t) passes exactly the instances of t, unchanged, and otherwise names t and the value's class |
| Validation.MapValidate | datalayer/specs.py:144-164 | Map has no validate of its own: every dict passes unchanged and nothing else passes |
| Validation.BaseCheckAsWritten | datalayer/specs.py:31-38 | definition of Spec.validate as written, naming the expected class by `typename(self.base_type)`, no contract of its own; BaseCheckNamesMetaclass and BaseCheckCounterexample state what it gives |
| Validation.ValidateAsWritten | datalayer/specs.py:31-178 | definition of the whole-tree validation as written, with the state each call leaves its input in, no contract of its own; the lemmas below state what it gives |
| Validation.RunFieldsAsWritten | datalayer/specs.py:125-128 | definition of the field loop as written, keeping every write made before a failure, no contract of its own |
| Validation.ItemsAsWritten | datalayer/specs.py:177 | definition of the generator as written, consumed by `list` or `tuple`, no contract of its own |
| Validation.ModelAsWrittenKeepsKeys | datalayer/specs.py:125-130 | as written, on success or failure, Model.validate leaves a dict with the same keys in the same positions and every undeclared entry untouched; on success it returns that dict |
| Validation.SeqOnStringAsWritten | datalayer/specs.py:176-177 | as written, any string passes any Seq and comes back as a generator's repr, the string itself unchanged |
| Validation.SeqOnStringCounterexample | datalayer/specs.py:174-178 | Seq(int).validate('ab') passes as written with a value other than 'ab'; the corrected version rejects the item 'a' |
| Validation.ModelFieldCounterexample | datalayer/specs.py:125-128 | Model({'colors': Seq(str)}).validate({'colors': 'red'}) as written returns, and leaves in the dict passed, the repr in place of 'red'; corrected, the dict passes and is left as it was |
| Validation.NestedSeqCounterexample | datalayer/specs.py:174-178 | Seq(Seq(int)).validate(['ab']) as written passes with a list holding a repr; corrected, the item 'a' is refused |
| Validation.PartialWritesCounterexample | datalayer/specs.py:125-128 | as written, a failure inside a nested Model leaves the outer dict holding the inner dict with the writes made before the failure; corrected, the same error and no change |
| Validation.AsWrittenAgrees | datalayer/specs.py:31-178 | on a value holding no string, the code as written passes exactly what the corrected validation passes, gives back the input and leaves it as it was |
| Validation.SeqOfStrAcceptsStrings | datalayer/specs.py:174-178 | corrected, Seq(str) passes every string and gives it back |
| Validation.SeqOnStringValidatesCharacters | datalayer/specs.py:174-178 | corrected: a string passes iff each of its one-character strings passes the element node, and it is given back |
| Validation.BaseCheckNamesMetaclass | datalayer/specs.py:33-37 | as written, every node whose base type is an ABC reports expected 'ABCMeta'; corrected, it names the ABC, which is never 'ABCMeta' |
| Validation.BaseCheckCounterexample | datalayer/specs.py:33-37 | Seq(int).validate(5) reports expected 'ABCMeta' as written and 'Sequence' corrected |
| Validation.BaseCheckAgreesOnPlainClasses | datalayer/specs.py:33-37 | for a base type that is a plain class, the code as written and the corrected check agree |
| Navigation.ModelInner | datalayer/specs.py:132-141 | definition of Model.inner(item, default), no contract of its own; the four ModelInner lemmas below state what it gives |
| Navigation.InnermostOf | datalayer/specs.py:44-49 | definition of innermost() as a recursion, no contract of its own; InnermostNeverSpec and InnermostStripsSeqs state what it gives |
| Navigation.ModelInnerWhole | datalayer/specs.py:132-134 | inner() returns the whole field mapping: each name, in order, bound to its node |
| Navigation.ModelInnerFound | datalayer/specs.py:136-137 | inner(k) for a declared field k returns that field's node, whatever the default |
| Navigation.ModelInnerMissing | datalayer/specs.py:138-141 | a hashable item naming no field raises a schema error naming the node and the item; with a default, the default is returned |
| Navigation.ModelInnerUnhashable | datalayer/specs.py:136-137 | an unhashable item raises TypeError before any lookup, even when a default is given |
| Navigation.Innermost | datalayer/specs.py:44-49 | the while loop returns InnermostOf(s), which is never a Spec |
| Navigation.InnermostNeverSpec | datalayer/specs.py:44-49 | innermost() never returns a Spec |
| Navigation.InnermostStripsSeqs | datalayer/specs.py:44-49 | innermost() is the inner value of the first node below the chain of Seqs: Seq(...Atom(T)) gives T, a Model its field mapping, a Map its pair |
| Equality.SpecEq | datalayer/specs.py:19-20 | definition of `a == b`, no contract of its own; the lemmas below state what it gives |
| Equality.FieldsEq | datalayer/specs.py:19-20 | definition of the dict comparison of two field mappings, no contract of its own |
| Equality.SpecEqReflexive | datalayer/specs.py:19-20 | every well-formed node is equal to itself |
| Equality.FieldsEqReorder | datalayer/specs.py:19-20 | with distinct names, the dict comparison accepts any reordering of the same fields |
| Equality.ModelEqIgnoresOrder | datalayer/specs.py:19-20 | two Models holding the same fields in any order are equal |
| Equality.SpecEqSameClass | datalayer/specs.py:19-20 | equal nodes have the same class and base type; two Atoms are equal iff they wrap the same class |
| Equality.SpecEqMixedKinds | datalayer/specs.py:19-20 | a Seq compared with another kind raises AttributeError on the other side's wrapped value; other mixed pairs are unequal |
| Equality.ModelEqRequiresLeftFields | datalayer/specs.py:19-20 | Models of different sizes are unequal, and equal Models have every left field present on the right, bound to an equal node |
| Equality.ModelEqIff | datalayer/specs.py:19-20 | two Models are equal iff they have as many fields and every left field is present on the right, bound to an equal node |
| Equality.SeqEqByElement | datalayer/specs.py:19-20 | two Seqs compare as their elements do |
| Equality.MapEqByParts | datalayer/specs.py:19-20 | two Maps are equal iff their key nodes are equal and their value nodes are equal |
| Equality.SpecEqSymmetric | datalayer/specs.py:19-20 | equality between well-formed nodes is symmetric |
| Dispatch.FromPython | datalayer/specs.py:188-190 | definition of from_python, no contract of its own; the FromPython lemmas below state what it gives |
| Dispatch.Example | datalayer/specs.py:193-203 | definition of `example`, built node by node, no contract of its own; ExampleBuilds states what it gives |
| Dispatch.SpecClassFor | datalayer/specs.py:182-189 | the registry yields Model, Seq or the fallback Atom |
| Dispatch.SpecClassForValues | datalayer/specs.py:182-189 | from_python picks Model exactly for dicts, and Seq exactly for strings, lists and tuples |
| Dispatch.FromPythonDict | datalayer/specs.py:188-190 | from_python of a dict is Model construction on it |
| Dispatch.FromPythonSequenceFails | datalayer/specs.py:188-190 | from_python of a string, list or tuple always raises a schema error from Seq |
| Dispatch.FromPythonOther | datalayer/specs.py:188-190 | from_python of anything else is Atom construction, which succeeds exactly for non-Spec classes |
| Dispatch.FromPythonExample | tests/test_specs.py:244-245 | from_python({'foo': str}) is Model({'foo': Atom(str)}) |
| Dispatch.ExampleRecordBuilds | datalayer/specs.py:196-201 | the nested record description of `example` builds the expected Model |
| Dispatch.ExampleBuilds | datalayer/specs.py:193-203 | `example` builds, node by node, the expected tree |
| Dispatch.ExampleWellFormed | datalayer/specs.py:193-203 | the tree of `example` is well-formed |
| Scenarios.AtomRefusesSpecs | tests/test_specs.py:19-25 | Atom(Atom), Atom(Model) and Atom(Atom(int)) fail with "cannot be a Spec" |
| Scenarios.AtomRefusesNonTypes | tests/test_specs.py:29-33 | Atom(5) and Atom(True) fail with a wrong-type error |
| Scenarios.AtomKeepsTypes | tests/test_specs.py:35-37 | Atom(int) and Atom(list) store their class |
| Scenarios.AtomIntValidate | tests/test_specs.py:39-51 | Atom(int) refuses 'foo', None and [1, 2, 3], and passes 5 and True |
| Scenarios.ModelFromDict | tests/test_specs.py:67-71 | Model(spec_fields()) wraps every bare class as an Atom and keeps Atom(float) |
| Scenarios.ModelFromObject | tests/test_specs.py:73-74 | Model(SimpleNamespace(**spec_fields())) builds the same tree |
| Scenarios.NamespaceModelEqualsDictModel | tests/test_specs.py:73-75 | and the two compare equal |
| Scenarios.FieldsEqualsItself | tests/test_specs.py:69-75 | the Model of the test fields compares equal to itself |
| Scenarios.KidsNodeBuilds | tests/test_specs.py:78 | Model({'name': str}) is built with one field |
| Scenarios.ModelOfNestedSpec | tests/test_specs.py:77-81 | Model(spec_fields({'kids': kids})) keeps the node as its field 'kids', whose own 'name' field is Atom(str) |
| Scenarios.ModelRefusesIntKey | tests/test_specs.py:83-85 | spec_fields({1: bool}) fails with "keys must be str" |
| Scenarios.ModelRefusesTupleKey | tests/test_specs.py:86-87 | spec_fields({('x', 'y'): str}) fails with "keys must be str" |
| Scenarios.ModelRefusesValue | tests/test_specs.py:89-91 | spec_fields({'name': 'bob'}) fails with a wrong-type error |
| Scenarios.ModelCounts | tests/test_specs.py:96-101 | three entries fail "too few items" (4, 3); five fail "too many items" (4, 5) |
| Scenarios.ModelMissingField | tests/test_specs.py:103-106 | a record whose fourth key is not 'verified' fails with "field 'verified' not found" |
| Scenarios.ModelWrongFieldType | tests/test_specs.py:108-111 | a non-bool 'verified' fails with the Atom(bool) error |
| Scenarios.ModelHappyPath | tests/test_specs.py:113-117 | a valid record comes back equal |
| Scenarios.ModelInnerMissingKeys | tests/test_specs.py:122-126 | inner(5) and inner('greeting') raise a schema error naming the missing key |
| Scenarios.ModelInnerDefaults | tests/test_specs.py:127-128 | inner(6.6, 'foo') and inner('greeting', str) return their defaults |
| Scenarios.ModelInnerField | tests/test_specs.py:137-138 | inner('age') is Atom(int), whose inner() is int |
| Scenarios.InnermostCases | tests/test_specs.py:147-157 | Seq(Seq(int)) gives int, Atom(str) gives str, and a Model gives its field mapping |
| Scenarios.MapOfTypes | tests/test_specs.py:164-165 | Map((str, int)) is (Atom(str), Atom(int)) |
| Scenarios.MapFromList | tests/test_specs.py:166-167 | Map([int, dict]) is (Atom(int), Atom(dict)) |
| Scenarios.MapOfNestedValue | tests/test_specs.py:170-174 | Seq(bool) is built, and Map((str, Seq(bool))) keeps it as the value node |
| Scenarios.MapOfNodes | tests/test_specs.py:175-178 | Map((Seq(bool), int)) keeps the Seq node as key |
| Scenarios.MapRefusesNonSequences | tests/test_specs.py:181-186 | Map(52) and Map({'x': 3, 'y': 6}) fail |
| Scenarios.MapRefusesString | tests/test_specs.py:183-184 | Map('xo') fails, because 'x' is neither a class nor a node |
| Scenarios.MapRefusesWrongLength | tests/test_specs.py:189-192 | three items or one item fail |
| Scenarios.MapRefusesDictKey | tests/test_specs.py:195-196 | Map((dict, float)) fails for its unhashable key |
| Scenarios.MapRefusesListKey | tests/test_specs.py:197-198 | Map((list, float)) fails for its unhashable key |
| Scenarios.SeqOfTypes | tests/test_specs.py:205-208 | Seq(str) and Seq(dict) wrap their class as an Atom element |
| Scenarios.SeqOfNestedSpec | tests/test_specs.py:211-214 | Seq(kids) keeps the node as its element, whose 'name' field is Atom(str) |
| Scenarios.SeqRefusesNonSequences | tests/test_specs.py:219-223 | Seq(int) refuses 5 and {1: 2} |
| Scenarios.SeqRefusesStrings | tests/test_specs.py:225-227 | Seq(int) refuses ('foo', 'bar', 'baz') at its first item |
| Scenarios.SeqRefusesFloat | tests/test_specs.py:228-229 | Seq(int) refuses [1, 2, 3.3] at its third item |
| Scenarios.SeqOfInts | tests/test_specs.py:231-233 | Seq(int) passes [1, 2, 3] unchanged |
| Scenarios.KidValidates | tests/test_specs.py:236-238 | Model({'name': str, 'age': int}) passes any such record unchanged |
| Scenarios.SeqOfModels | tests/test_specs.py:235-241 | a Seq of Models passes a list of two such records unchanged, whatever their names and ages |

## Findings

| source | as written | input that shows it | evidently intended | confidence | as-written member | corrected member |
|---|---|---|---|---|---|---|
| datalayer/specs.py:176-177 | `type(value)(generator)` on a str input is `str(generator)`, which returns the generator's repr and never runs it, so no character is validated | `Seq(int).validate('ab')` returns a '<generator object ...>' string instead of failing; at any depth the same holds (`Seq(Seq(int)).validate(['ab'])` passes), and `Model({'colors': Seq(str)}).validate({'colors': 'red'})` overwrites 'red' in the dict passed with that string | validate each one-character string against the element node and give back a string | high (not executed) | Validation.ValidateAsWritten, Validation.SeqOnStringCounterexample, Validation.ModelFieldCounterexample, Validation.NestedSeqCounterexample | Validation.Validate, Validation.SeqOnStringValidatesCharacters |
| datalayer/specs.py:36 | the expected class is named `typename(self.base_type)`, and typename names an ABC by its metaclass | `Seq(int).validate(5)` reports expected 'ABCMeta', not 'Sequence'; the same for every Model and Map | name the base type itself, `self.base_type.__name__` | high (not executed) | Validation.BaseCheckAsWritten, Validation.BaseCheckCounterexample | Validation.BaseCheck, Validation.BaseCheckNamesMetaclass |

The rest of the model uses the corrected definitions: `Validate` calls `BaseCheck` and rebuilds a string by giving it back. `ValidateAsWritten` keeps both behaviours of the code as written over a whole tree, and records the in-place writes each call makes. `AsWrittenAgrees` shows that the two validations pass the same values, and change nothing, on any value that holds no string.

## Left out

- Exact error text raised from `specs.py`: `SchemaError` and `.wrong_type` are not defined in `exceptions.py`, and `ValidationError` is called there with three arguments against a two-parameter constructor. Errors from `specs.py` are modelled as kind, offending node and structured cause. This also leaves out the missing separator in "too many items" + "expected ..." (datalayer/specs.py:117-118).
- Python's runtime reflection: `isinstance`, `issubclass`, metaclasses, `__dict__` and `__hash__` are total functions over a closed universe of classes. User classes are plain classes with no base classes of their own. User-defined Spec subclasses (the `custom_spec` fixture) and direct `CompoundSpec` instances are not in the universe.
- `SubclassDict`: the registry internals are not part of this model. `from_python`'s lookup is a case split over its two registered base types.
- Object identity: values are immutable trees. `is` in the tests is read as equality. `Validation.ValidateModel` updates the top-level dict in place and returns the same object. Under the corrected validation every write stores an equal value, so nothing visible changes (`Validation.ModelValidateLeavesValue`). The writes of the code as written, nested ones included, are the `after` state of `Validation.ValidateAsWritten`; there a nested dict keeps the writes made before a failure. Aliasing is not represented: a dict reached twice, or shared with a caller through another reference, is two separate values.
- Dict keys compare structurally: Python's `1 == True` key equality, and the identity shortcut of dict and tuple comparison, are not represented. For the Spec values compared here, the shortcut cannot change an outcome.
- The `MapSpec` named tuple is a plain two-item tuple in `inner()`; its `.key` and `.value` attributes are the `key` and `val` fields of the `Map` node.
- The memory address in a generator's repr is the parameter `addr` of `Validation.ValidateAsWritten`; every generator of one call is given the same address.
- Floats are `real` values used only as data; there is no float arithmetic.
- The query-string modules and the two `datastructures.py` files are consumers or plain data holders, not part of this model.
