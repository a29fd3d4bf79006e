/** datalayer/specs.py, construction phase: the errors the engine raises,
    each node kind's `base_type`, `inner()`, and `validate_spec`, which
    normalises a raw description into a node or raises a schema error. */
module Specs {
  import opened Wrappers
  import opened Objects
  import Utils

  /** The `self` an error names: during construction it is the node being
      built, known only by its class; afterwards it is the node itself. */
  datatype Offender = Building(cls: SpecClassName) | Node(node: Spec)

  datatype SchemaCause =
    | CannotBeSpec
    | WrongType(expected: string, actual: string)
    | KeysMustBeStr
    | UnhashableKey(keySpec: string)
    | KeyNotFound(item: Value)

  datatype ValidationCause =
    | WrongBaseType(expectedType: string, actualType: string)
    | TooManyItems(wanted: nat, got: nat)
    | TooFewItems(wanted: nat, got: nat)
    | FieldNotFound(field: string)

  /** An exception raised while building, validating or navigating. The
      last two are raised by Python itself rather than by the library. */
  datatype Error =
    | SchemaError(offender: Offender, cause: SchemaCause)
    | ValidationError(spec: Spec, vcause: ValidationCause)
    | AttributeError(obj: Value, attr: string)
    | UnhashableTypeError(typeName: string)

  function Quote(s: string): string {
    "'" + s + "'"
  }

  /** The class a node accepts at the top level. */
  function BaseType(s: Spec): PyType {
    match s
    case Atom(t) => t
    case Model(_) => Mapping
    case Map(_, _) => Mapping
    case Seq(_) => Sequence
  }

  /** The field mapping of a Model as the Python dict it stores. */
  function FieldsAsDict(fields: seq<(string, Spec)>): (d: seq<(Value, Value)>)
    ensures |d| == |fields|
    ensures forall i :: 0 <= i < |d| ==> d[i] == (VStr(fields[i].0), VSpec(fields[i].1))
  {
    seq(|fields|, i requires 0 <= i < |fields| => (VStr(fields[i].0), VSpec(fields[i].1)))
  }

  /** `spec.inner()`: the wrapped value. A Map's (key, value) named tuple is
      represented as a plain tuple. */
  function Inner(s: Spec): Value {
    match s
    case Atom(t) => VType(t)
    case Model(fields) => VDict(FieldsAsDict(fields))
    case Map(k, v) => VTuple([VSpec(k), VSpec(v)])
    case Seq(e) => VSpec(e)
  }

  predicate DistinctNames(fields: seq<(string, Spec)>) {
    forall i, j :: 0 <= i < j < |fields| ==> fields[i].0 != fields[j].0
  }

  predicate DistinctKeys(entries: seq<(Value, Value)>) {
    forall i, j :: 0 <= i < j < |entries| ==> entries[i].0 != entries[j].0
  }

  /** The invariants construction establishes: an Atom never wraps a Spec
      class, a Model's field names are distinct, a Map's key node has a
      hashable base type; recursively. */
  predicate WellFormed(s: Spec) {
    match s
    case Atom(t) => !t.SpecClass?
    case Model(fields) =>
      DistinctNames(fields) && forall i :: 0 <= i < |fields| ==> WellFormed(fields[i].1)
    case Map(k, v) => Hashable(BaseType(k)) && WellFormed(k) && WellFormed(v)
    case Seq(e) => WellFormed(e)
  }

  /** `validated_spec[name] = child`: an existing key keeps its position,
      a new one goes last. */
  function Assign(fields: seq<(string, Spec)>, name: string, child: Spec): (r: seq<(string, Spec)>)
    ensures DistinctNames(fields) ==> DistinctNames(r)
    ensures (name, child) in r
    ensures Find(fields, name) < |fields| ==> |r| == |fields|
    ensures forall p :: p in r ==> p in fields || p == (name, child)
    ensures Find(fields, name) < |fields| ==> r == fields[Find(fields, name) := (name, child)]
    ensures Find(fields, name) == |fields| ==> r == fields + [(name, child)]
  {
    var k := Find(fields, name);
    if k < |fields| then
      var r := fields[k := (name, child)];
      assert r[k] == (name, child);
      r
    else fields + [(name, child)]
  }

  /** Atom.validate_spec: `spec` must be a class object (its type is a
      subclass of `type`) and must not be a Spec class; a non-class is
      rejected as a Spec if it is a Spec instance, else as a wrong type. */
  function NewAtom(raw: Value): (r: Result<Spec, Error>)
    ensures r.Success? <==> raw.VType? && !raw.t.SpecClass?
    ensures r.Success? ==> r.value == Atom(raw.t)
    ensures raw.VSpec? || (raw.VType? && raw.t.SpecClass?) ==>
      r == Failure(SchemaError(Building(AtomClass), CannotBeSpec))
    ensures !raw.VSpec? && !raw.VType? ==>
      r == Failure(SchemaError(Building(AtomClass), WrongType("'type'", Quote(Utils.TypeName(raw)))))
  {
    var isType := IsSubclass(TypeOf(raw), Type);
    var isSpec := if isType then IsSubclass(raw.t, SpecClass(SpecBase))
                  else IsInstance(raw, SpecClass(SpecBase));
    if isSpec then Failure(SchemaError(Building(AtomClass), CannotBeSpec))
    else if !isType then
      Failure(SchemaError(Building(AtomClass), WrongType("'type'", Quote(Utils.TypeName(raw)))))
    else Success(Atom(raw.t))
  }

  /** CompoundSpec._validate_spec_or_type, the type-or-node rule: a class
      becomes an Atom (which may itself refuse it), a Spec instance is kept,
      anything else is refused by the compound node `cls` being built. */
  function SpecOrType(cls: SpecClassName, raw: Value): (r: Result<Spec, Error>)
    ensures raw.VSpec? ==> r == Success(raw.node)
    ensures raw.VType? && !raw.t.SpecClass? ==> r == Success(Atom(raw.t))
    ensures raw.VType? && raw.t.SpecClass? ==> r == Failure(SchemaError(Building(AtomClass), CannotBeSpec))
    ensures !raw.VSpec? && !raw.VType? ==>
      r == Failure(SchemaError(Building(cls), WrongType("Spec or type", Quote(Utils.TypeName(raw)))))
  {
    if IsInstance(raw, Type) then NewAtom(raw)
    else if !IsInstance(raw, SpecClass(SpecBase)) then
      Failure(SchemaError(Building(cls), WrongType("Spec or type", Quote(Utils.TypeName(raw)))))
    else Success(raw.node)
  }

  function StrKeyed(attrs: seq<(string, Value)>): (d: seq<(Value, Value)>)
    ensures |d| == |attrs|
    ensures forall i :: 0 <= i < |d| ==> d[i] == (VStr(attrs[i].0), attrs[i].1)
  {
    seq(|attrs|, i requires 0 <= i < |attrs| => (VStr(attrs[i].0), attrs[i].1))
  }

  /** `spec.__dict__` for a description that is neither a class nor a
      mapping: an object's attributes, a Spec instance's single `spec`
      attribute; other values have no `__dict__`. */
  function AttributeDict(raw: Value): Result<seq<(Value, Value)>, Error>
    requires !raw.VType? && !raw.VDict?
  {
    match raw
    case VNamespace(attrs) => Success(StrKeyed(attrs))
    case VInstance(_, attrs) => Success(StrKeyed(attrs))
    case VSpec(s) => Success([(VStr("spec"), Inner(s))])
    case _ => Failure(AttributeError(raw, "__dict__"))
  }

  /** The loop of Model.validate_spec from `acc` on: each key must be
      exactly a str, each value goes through the type-or-node rule. */
  function CoerceFields(acc: seq<(string, Spec)>, entries: seq<(Value, Value)>): Result<seq<(string, Spec)>, Error>
    decreases |entries|
  {
    if entries == [] then Success(acc)
    else if TypeOf(entries[0].0) != Str then Failure(SchemaError(Building(ModelClass), KeysMustBeStr))
    else
      var child :- SpecOrType(ModelClass, entries[0].1);
      CoerceFields(Assign(acc, entries[0].0.s, child), entries[1..])
  }

  /** The entries Model.validate_spec reads from a description that is not
      a class. */
  function ModelEntries(raw: Value): Result<seq<(Value, Value)>, Error>
    requires !raw.VType?
  {
    if IsInstance(raw, Mapping) then Success(raw.entries) else AttributeDict(raw)
  }

  /** Model.validate_spec */
  function NewModel(raw: Value): Result<Spec, Error> {
    if IsInstance(raw, Type) then
      Failure(SchemaError(Building(ModelClass), WrongType("Mapping or object", Quote(Utils.TypeName(raw)))))
    else
      var entries :- ModelEntries(raw);
      var fields :- CoerceFields([], entries);
      Success(Model(fields))
  }

  /** Once the entries are read, the field loop decides the result. */
  lemma NewModelOfEntries(raw: Value)
    requires !IsInstance(raw, Type) && ModelEntries(raw).Success?
    ensures var c := CoerceFields([], ModelEntries(raw).value);
      NewModel(raw) == if c.Success? then Success(Model(c.value)) else Failure(c.error)
  {
  }

  /** One turn of the construction loop, at the i-th entry. */
  lemma CoerceFieldsAt(acc: seq<(string, Spec)>, entries: seq<(Value, Value)>, i: nat)
    requires i < |entries|
    ensures TypeOf(entries[i].0) != Str ==>
      CoerceFields(acc, entries[i..]) == Failure(SchemaError(Building(ModelClass), KeysMustBeStr))
    ensures TypeOf(entries[i].0) == Str && SpecOrType(ModelClass, entries[i].1).Failure? ==>
      CoerceFields(acc, entries[i..]) == Failure(SpecOrType(ModelClass, entries[i].1).error)
    ensures TypeOf(entries[i].0) == Str && SpecOrType(ModelClass, entries[i].1).Success? ==>
      CoerceFields(acc, entries[i..]) ==
        CoerceFields(Assign(acc, entries[i].0.s, SpecOrType(ModelClass, entries[i].1).value), entries[i + 1..])
  {
    assert entries[i..][0] == entries[i] && entries[i..][1..] == entries[i + 1..];
  }

  /** Model.validate_spec as the source runs it: the entries are read,
      then one pass over them fills `validated_spec`. */
  method ModelValidateSpec(raw: Value) returns (r: Result<Spec, Error>)
    ensures r == NewModel(raw)
  {
    if IsInstance(raw, Type) {
      return Failure(SchemaError(Building(ModelClass), WrongType("Mapping or object", Quote(Utils.TypeName(raw)))));
    }
    var source := ModelEntries(raw);
    if source.Failure? {
      return Failure(source.error);
    }
    NewModelOfEntries(raw);
    var validated := FillFields(source.value);
    if validated.Failure? {
      return Failure(validated.error);
    }
    return Success(Model(validated.value));
  }

  /** The loop of Model.validate_spec over the entries read. */
  method FillFields(entries: seq<(Value, Value)>) returns (r: Result<seq<(string, Spec)>, Error>)
    ensures r == CoerceFields([], entries)
  {
    var validated: seq<(string, Spec)> := [];
    for i := 0 to |entries|
      invariant CoerceFields(validated, entries[i..]) == CoerceFields([], entries)
    {
      CoerceFieldsAt(validated, entries, i);
      var (key, val) := entries[i];
      if TypeOf(key) != Str {
        return Failure(SchemaError(Building(ModelClass), KeysMustBeStr));
      }
      var child := SpecOrType(ModelClass, val);
      if child.Failure? {
        return Failure(child.error);
      }
      validated := Assign(validated, key.s, child.value);
    }
    assert entries[|entries|..] == [];
    return Success(validated);
  }

  /** Map.validate_spec: a sequence of exactly two items, each through the
      type-or-node rule (key first); the key node's base type must be
      hashable. */
  function NewMap(raw: Value): (r: Result<Spec, Error>)
    ensures r.Success? <==>
      IsInstance(raw, Sequence) && |Items(raw)| == 2 &&
      SpecOrType(MapClass, Items(raw)[0]).Success? &&
      SpecOrType(MapClass, Items(raw)[1]).Success? &&
      Hashable(BaseType(SpecOrType(MapClass, Items(raw)[0]).value))
    ensures r.Success? ==>
      r.value == Map(SpecOrType(MapClass, Items(raw)[0]).value, SpecOrType(MapClass, Items(raw)[1]).value)
    ensures !(IsInstance(raw, Sequence) && |Items(raw)| == 2) ==>
      r == Failure(SchemaError(Building(MapClass), WrongType("sequence with 2 items", Quote(Utils.TypeName(raw)))))
    ensures IsInstance(raw, Sequence) && |Items(raw)| == 2 && SpecOrType(MapClass, Items(raw)[0]).Failure? ==>
      r == SpecOrType(MapClass, Items(raw)[0]).PropagateFailure()
  {
    if !(IsInstance(raw, Sequence) && |Items(raw)| == 2) then
      Failure(SchemaError(Building(MapClass), WrongType("sequence with 2 items", Quote(Utils.TypeName(raw)))))
    else
      var key :- SpecOrType(MapClass, Items(raw)[0]);
      var val :- SpecOrType(MapClass, Items(raw)[1]);
      if !Hashable(BaseType(key)) then
        Failure(SchemaError(Building(MapClass), UnhashableKey(Quote(Utils.TypeName(VSpec(key))))))
      else Success(Map(key, val))
  }

  /** The key node must have a hashable base type: an Atom of `dict` or
      `list`, a Model or a Map as key is refused, naming the key node's
      class. */
  lemma MapKeyMustBeHashable(raw: Value)
    requires IsInstance(raw, Sequence) && |Items(raw)| == 2
    requires SpecOrType(MapClass, Items(raw)[0]).Success? && SpecOrType(MapClass, Items(raw)[1]).Success?
    requires !Hashable(BaseType(SpecOrType(MapClass, Items(raw)[0]).value))
    ensures var key := SpecOrType(MapClass, Items(raw)[0]).value;
      NewMap(raw) == Failure(SchemaError(Building(MapClass), UnhashableKey(Quote(ClassName(SpecClass(ClassOf(key)))))))
    ensures var key := SpecOrType(MapClass, Items(raw)[0]).value;
      key.Atom? || key.Model? || key.Map?
  {
    var key := SpecOrType(MapClass, Items(raw)[0]).value;
    UnhashableKeyOf(raw, key, SpecOrType(MapClass, Items(raw)[1]).value);
    Utils.SpecInstanceAndClassDisagree(key);
  }

  lemma UnhashableKeyOf(raw: Value, key: Spec, val: Spec)
    requires IsInstance(raw, Sequence) && |Items(raw)| == 2
    requires SpecOrType(MapClass, Items(raw)[0]) == Success(key) && SpecOrType(MapClass, Items(raw)[1]) == Success(val)
    requires !Hashable(BaseType(key))
    ensures NewMap(raw) == Failure(SchemaError(Building(MapClass), UnhashableKey(Quote(Utils.TypeName(VSpec(key))))))
  {
  }

  /** Seq.validate_spec: the element description through the type-or-node
      rule. */
  function NewSeq(raw: Value): (r: Result<Spec, Error>)
    ensures r.Success? <==> raw.VSpec? || (raw.VType? && !raw.t.SpecClass?)
    ensures r.Success? ==> r.value == Seq(if raw.VSpec? then raw.node else Atom(raw.t))
  {
    var elem :- SpecOrType(SeqClass, raw);
    Success(Seq(elem))
  }

  /** `cls(raw)` for the four node classes. */
  function Construct(cls: SpecClassName, raw: Value): Result<Spec, Error>
    requires cls in {AtomClass, ModelClass, MapClass, SeqClass}
  {
    match cls
    case AtomClass => NewAtom(raw)
    case ModelClass => NewModel(raw)
    case MapClass => NewMap(raw)
    case SeqClass => NewSeq(raw)
  }

  /** Why an entry of a Model description is refused, if it is. */
  predicate EntryAccepted(entry: (Value, Value)) {
    TypeOf(entry.0) == Str && SpecOrType(ModelClass, entry.1).Success?
  }

  function EntryError(entry: (Value, Value)): Error
    requires !EntryAccepted(entry)
  {
    if TypeOf(entry.0) != Str then SchemaError(Building(ModelClass), KeysMustBeStr)
    else SpecOrType(ModelClass, entry.1).error
  }

  /** The field loop succeeds exactly when every key is a str and every
      value is a type or a node. */
  lemma {:induction false} CoerceFieldsSucceeds(acc: seq<(string, Spec)>, entries: seq<(Value, Value)>)
    ensures CoerceFields(acc, entries).Success? <==>
      forall i :: 0 <= i < |entries| ==> EntryAccepted(entries[i])
    decreases |entries|
  {
    if entries != [] && EntryAccepted(entries[0]) {
      var child := SpecOrType(ModelClass, entries[0].1).value;
      CoerceFieldsSucceeds(Assign(acc, entries[0].0.s, child), entries[1..]);
      assert forall i :: 1 <= i < |entries| ==> entries[i] == entries[1..][i - 1];
    }
  }

  /** The first refused entry, in description order, is the one reported. */
  lemma {:induction false} CoerceFieldsFirstFailure(acc: seq<(string, Spec)>, entries: seq<(Value, Value)>, j: nat)
    requires j < |entries| && !EntryAccepted(entries[j])
    requires forall i :: 0 <= i < j ==> EntryAccepted(entries[i])
    ensures CoerceFields(acc, entries) == Failure(EntryError(entries[j]))
    decreases j
  {
    if j > 0 {
      var child := SpecOrType(ModelClass, entries[0].1).value;
      assert forall i :: 0 <= i < j - 1 ==> entries[1..][i] == entries[i + 1];
      CoerceFieldsFirstFailure(Assign(acc, entries[0].0.s, child), entries[1..], j - 1);
    }
  }

  /** One turn of the loop, for a description the loop completes: the
      first key is a str `name` and its value coerces to `child`. */
  lemma CoerceFieldsStep(acc: seq<(string, Spec)>, entries: seq<(Value, Value)>) returns (name: string, child: Spec)
    requires entries != [] && CoerceFields(acc, entries).Success?
    ensures entries[0].0 == VStr(name) && SpecOrType(ModelClass, entries[0].1) == Success(child)
    ensures CoerceFields(acc, entries) == CoerceFields(Assign(acc, name, child), entries[1..])
  {
    CoerceFieldsAt(acc, entries, 0);
    assert entries[0..] == entries;
    OnlyStringsAreStr(entries[0].0);
    name := entries[0].0.s;
    child := SpecOrType(ModelClass, entries[0].1).value;
  }

  /** No key of `entries` names a field already in `acc`. */
  predicate FreshKeys(acc: seq<(string, Spec)>, entries: seq<(Value, Value)>) {
    forall i, k :: 0 <= i < |entries| && 0 <= k < |acc| ==> entries[i].0 != VStr(acc[k].0)
  }

  /** `fields` holds one field per entry, in order, named by the entry's
      key and holding the node its value coerces to. */
  predicate Describes(entries: seq<(Value, Value)>, fields: seq<(string, Spec)>) {
    |fields| == |entries| &&
    forall i :: 0 <= i < |entries| ==>
      entries[i].0 == VStr(fields[i].0) && SpecOrType(ModelClass, entries[i].1) == Success(fields[i].1)
  }

  /** `r` is `acc` followed by the fields `entries` describe. */
  predicate Shaped(acc: seq<(string, Spec)>, entries: seq<(Value, Value)>, r: seq<(string, Spec)>) {
    |acc| <= |r| && r[..|acc|] == acc && Describes(entries, r[|acc|..])
  }

  lemma FreshKeysStep(acc: seq<(string, Spec)>, entries: seq<(Value, Value)>, name: string, child: Spec)
    requires DistinctKeys(entries) && FreshKeys(acc, entries)
    requires entries != [] && entries[0].0 == VStr(name)
    ensures Assign(acc, name, child) == acc + [(name, child)]
    ensures DistinctKeys(entries[1..])
    ensures FreshKeys(acc + [(name, child)], entries[1..])
  {
    assert forall k :: 0 <= k < |acc| ==> entries[0].0 != VStr(acc[k].0);
    FindAbsent(acc, name);
    var acc', rest := acc + [(name, child)], entries[1..];
    forall i, k | 0 <= i < |rest| && 0 <= k < |acc'|
      ensures rest[i].0 != VStr(acc'[k].0)
    {
      assert rest[i] == entries[i + 1];
      if k == |acc| {
        assert entries[0].0 != entries[i + 1].0;
      }
    }
  }

  lemma ShapedStep(acc: seq<(string, Spec)>, entries: seq<(Value, Value)>, name: string, child: Spec, r: seq<(string, Spec)>)
    requires entries != [] && entries[0].0 == VStr(name)
    requires SpecOrType(ModelClass, entries[0].1) == Success(child)
    requires Shaped(acc + [(name, child)], entries[1..], r)
    ensures Shaped(acc, entries, r)
  {
    var acc' := acc + [(name, child)];
    assert r[..|acc|] == r[..|acc'|][..|acc|];
    var tail, rest := r[|acc|..], r[|acc'|..];
    forall i | 0 <= i < |entries|
      ensures entries[i].0 == VStr(tail[i].0) && SpecOrType(ModelClass, entries[i].1) == Success(tail[i].1)
    {
      if i == 0 {
        assert tail[0] == r[..|acc'|][|acc|] == (name, child);
      } else {
        assert entries[1..][i - 1] == entries[i];
        assert tail[i] == rest[i - 1];
      }
    }
  }

  /** With distinct keys, none already in `acc`, the loop appends one field
      per entry, in order, named by the key and holding the coerced value. */
  lemma {:induction false} CoerceFieldsShape(acc: seq<(string, Spec)>, entries: seq<(Value, Value)>)
    requires DistinctKeys(entries) && FreshKeys(acc, entries)
    requires CoerceFields(acc, entries).Success?
    ensures Shaped(acc, entries, CoerceFields(acc, entries).value)
    decreases |entries|
  {
    if entries != [] {
      var name, child := CoerceFieldsStep(acc, entries);
      FreshKeysStep(acc, entries, name, child);
      CoerceFieldsShape(acc + [(name, child)], entries[1..]);
      ShapedStep(acc, entries, name, child, CoerceFields(acc, entries).value);
    }
  }

  /** Model construction from a dict with distinct keys: it succeeds iff
      every key is a str and every value a type or a node, and then keeps
      the keys in order, each holding its coerced value. */
  lemma NewModelFromDict(entries: seq<(Value, Value)>)
    requires DistinctKeys(entries)
    ensures NewModel(VDict(entries)).Success? <==> forall i :: 0 <= i < |entries| ==> EntryAccepted(entries[i])
    ensures NewModel(VDict(entries)).Success? ==> Describes(entries, NewModel(VDict(entries)).value.fields)
  {
    NewModelOfDict(entries);
    CoerceFieldsSucceeds([], entries);
    if CoerceFields([], entries).Success? {
      assert FreshKeys([], entries);
      CoerceFieldsShape([], entries);
      ShapedFromEmpty(entries, CoerceFields([], entries).value);
    }
  }

  lemma ShapedFromEmpty(entries: seq<(Value, Value)>, r: seq<(string, Spec)>)
    requires Shaped([], entries, r)
    ensures Describes(entries, r)
  {
    assert r[0..] == r;
  }

  /** A dict description goes straight to the field loop. */
  lemma NewModelOfDict(entries: seq<(Value, Value)>)
    ensures NewModel(VDict(entries)).Success? <==> CoerceFields([], entries).Success?
    ensures NewModel(VDict(entries)).Success? ==> NewModel(VDict(entries)).value == Model(CoerceFields([], entries).value)
  {
    assert ModelEntries(VDict(entries)) == Success(entries);
  }

  /** A dict description is refused for its first refused entry. */
  lemma NewModelFirstFailure(entries: seq<(Value, Value)>, j: nat)
    requires j < |entries| && !EntryAccepted(entries[j])
    requires forall i :: 0 <= i < j ==> EntryAccepted(entries[i])
    ensures NewModel(VDict(entries)) == Failure(EntryError(entries[j]))
  {
    assert ModelEntries(VDict(entries)) == Success(entries);
    CoerceFieldsFirstFailure([], entries, j);
  }

  /** The Model a dict description with distinct keys builds, given the
      node each of its values becomes. */
  lemma NewModelOf(entries: seq<(Value, Value)>, fields: seq<(string, Spec)>)
    requires DistinctKeys(entries) && Describes(entries, fields)
    ensures NewModel(VDict(entries)) == Success(Model(fields))
  {
    DescribesAccepted(entries, fields);
    NewModelFromDict(entries);
    DescribesUnique(entries, NewModel(VDict(entries)).value.fields, fields);
  }

  lemma DescribesAccepted(entries: seq<(Value, Value)>, fields: seq<(string, Spec)>)
    requires Describes(entries, fields)
    ensures forall i :: 0 <= i < |entries| ==> EntryAccepted(entries[i])
  {
  }

  lemma DescribesUnique(entries: seq<(Value, Value)>, f: seq<(string, Spec)>, g: seq<(string, Spec)>)
    requires Describes(entries, f) && Describes(entries, g)
    ensures f == g
  {
    assert forall i :: 0 <= i < |f| ==> f[i] == g[i];
  }

  /** An object that is not a mapping contributes its attributes: a
      SimpleNamespace gives the same Model as the dict of its attributes. */
  lemma NewModelFromNamespace(attrs: seq<(string, Value)>)
    ensures NewModel(VNamespace(attrs)) == NewModel(VDict(StrKeyed(attrs)))
  {
    assert ModelEntries(VNamespace(attrs)) == Success(StrKeyed(attrs));
    assert ModelEntries(VDict(StrKeyed(attrs))) == Success(StrKeyed(attrs));
    NewModelOfEntries(VNamespace(attrs));
    NewModelOfEntries(VDict(StrKeyed(attrs)));
  }

  /** Model construction refuses a class, and a value that is neither a
      mapping nor an object with attributes has no `__dict__`. */
  lemma NewModelRefusals(raw: Value)
    ensures raw.VType? ==>
      NewModel(raw) == Failure(SchemaError(Building(ModelClass), WrongType("Mapping or object", Quote(Utils.TypeName(raw)))))
    ensures !raw.VType? && !raw.VDict? && !raw.VNamespace? && !raw.VInstance? && !raw.VSpec? ==>
      NewModel(raw) == Failure(AttributeError(raw, "__dict__"))
  {
  }

  /** The nodes a description hands over are well-formed. */
  predicate NodesWellFormed(raw: Value) {
    match raw
    case VSpec(s) => WellFormed(s)
    case VDict(entries) => forall i :: 0 <= i < |entries| ==> entries[i].1.VSpec? ==> WellFormed(entries[i].1.node)
    case VNamespace(attrs) => forall i :: 0 <= i < |attrs| ==> attrs[i].1.VSpec? ==> WellFormed(attrs[i].1.node)
    case VInstance(_, attrs) => forall i :: 0 <= i < |attrs| ==> attrs[i].1.VSpec? ==> WellFormed(attrs[i].1.node)
    case VList(items) => forall i :: 0 <= i < |items| ==> items[i].VSpec? ==> WellFormed(items[i].node)
    case VTuple(items) => forall i :: 0 <= i < |items| ==> items[i].VSpec? ==> WellFormed(items[i].node)
    case _ => true
  }

  lemma SpecOrTypeWellFormed(cls: SpecClassName, raw: Value)
    requires raw.VSpec? ==> WellFormed(raw.node)
    ensures SpecOrType(cls, raw).Success? ==> WellFormed(SpecOrType(cls, raw).value)
  {
  }

  lemma {:induction false} CoerceFieldsWellFormed(acc: seq<(string, Spec)>, entries: seq<(Value, Value)>)
    requires DistinctNames(acc) && forall k :: 0 <= k < |acc| ==> WellFormed(acc[k].1)
    requires forall i :: 0 <= i < |entries| ==> entries[i].1.VSpec? ==> WellFormed(entries[i].1.node)
    requires CoerceFields(acc, entries).Success?
    ensures WellFormed(Model(CoerceFields(acc, entries).value))
    decreases |entries|
  {
    if entries != [] {
      var name, child := CoerceFieldsStep(acc, entries);
      SpecOrTypeWellFormed(ModelClass, entries[0].1);
      var acc' := Assign(acc, name, child);
      forall k | 0 <= k < |acc'| ensures WellFormed(acc'[k].1) {
        assert acc'[k] in acc';
      }
      assert forall i :: 0 <= i < |entries| - 1 ==> entries[1..][i] == entries[i + 1];
      CoerceFieldsWellFormed(acc', entries[1..]);
    }
  }

  /** Construction establishes the node invariants: every node that
      `Atom`, `Model`, `Map` or `Seq` returns is well-formed, provided the
      nodes handed to it are. */
  lemma ConstructWellFormed(cls: SpecClassName, raw: Value)
    requires cls in {AtomClass, ModelClass, MapClass, SeqClass}
    requires NodesWellFormed(raw)
    requires Construct(cls, raw).Success?
    ensures WellFormed(Construct(cls, raw).value)
  {
    match cls
    case AtomClass =>
    case SeqClass =>
    case MapClass => NewMapWellFormed(raw);
    case ModelClass => NewModelWellFormed(raw);
  }

  lemma NewMapWellFormed(raw: Value)
    requires NodesWellFormed(raw)
    requires NewMap(raw).Success?
    ensures WellFormed(NewMap(raw).value)
  {
    var key, val := NewMapParts(raw);
    ItemsWellFormed(raw);
    SpecOrTypeWellFormed(MapClass, Items(raw)[0]);
    SpecOrTypeWellFormed(MapClass, Items(raw)[1]);
  }

  lemma ItemsWellFormed(raw: Value)
    requires NodesWellFormed(raw) && IsInstance(raw, Sequence)
    ensures forall i :: 0 <= i < |Items(raw)| ==> Items(raw)[i].VSpec? ==> WellFormed(Items(raw)[i].node)
  {
  }

  /** A Map that was built: the two items of the description and the
      nodes they became. */
  lemma NewMapParts(raw: Value) returns (key: Spec, val: Spec)
    requires NewMap(raw).Success?
    ensures IsInstance(raw, Sequence) && |Items(raw)| == 2
    ensures SpecOrType(MapClass, Items(raw)[0]) == Success(key)
    ensures SpecOrType(MapClass, Items(raw)[1]) == Success(val)
    ensures Hashable(BaseType(key)) && NewMap(raw) == Success(Map(key, val))
  {
    key := SpecOrType(MapClass, Items(raw)[0]).value;
    val := SpecOrType(MapClass, Items(raw)[1]).value;
  }

  lemma NewModelWellFormed(raw: Value)
    requires NodesWellFormed(raw)
    requires NewModel(raw).Success?
    ensures WellFormed(NewModel(raw).value)
  {
    InstancesOfTheABCs(raw);
    EntriesWellFormed(raw);
    NewModelOfEntries(raw);
    CoerceFieldsWellFormed([], ModelEntries(raw).value);
  }

  lemma EntriesWellFormed(raw: Value)
    requires NodesWellFormed(raw) && !raw.VType? && ModelEntries(raw).Success?
    ensures var entries := ModelEntries(raw).value;
      forall i :: 0 <= i < |entries| ==> entries[i].1.VSpec? ==> WellFormed(entries[i].1.node)
  {
    if raw.VSpec? {
      assert ModelEntries(raw).value == [(VStr("spec"), Inner(raw.node))];
    }
  }
}
