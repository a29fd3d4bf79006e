/** The cases of tests/test_specs.py, each stated as a lemma about the
    model. */
module Scenarios {
  import opened Wrappers
  import opened Objects
  import opened Specs
  import opened Validation
  import opened Navigation
  import opened Equality
  import Utils

  /** The quoted class names the cases expect. */
  lemma QuotedNames()
    ensures Quote("Atom") == "'Atom'" && Quote("int") == "'int'" && Quote("str") == "'str'"
    ensures Quote("bool") == "'bool'" && Quote("float") == "'float'"
  {
  }

  // Atom

  lemma AtomRefusesSpecs()
    ensures NewAtom(VType(SpecClass(AtomClass))) == Failure(SchemaError(Building(AtomClass), CannotBeSpec))
    ensures NewAtom(VType(SpecClass(ModelClass))) == Failure(SchemaError(Building(AtomClass), CannotBeSpec))
    ensures NewAtom(VSpec(Atom(Int))) == Failure(SchemaError(Building(AtomClass), CannotBeSpec))
  {
  }

  lemma AtomRefusesNonTypes()
    ensures NewAtom(VInt(5)) == Failure(SchemaError(Building(AtomClass), WrongType("'type'", "'int'")))
    ensures NewAtom(VBool(true)) == Failure(SchemaError(Building(AtomClass), WrongType("'type'", "'bool'")))
  {
    assert Quote(Utils.TypeName(VInt(5))) == "'int'";
    assert Quote(Utils.TypeName(VBool(true))) == "'bool'";
  }

  lemma AtomKeepsTypes()
    ensures NewAtom(VType(Int)) == Success(Atom(Int))
    ensures NewAtom(VType(List)) == Success(Atom(List))
  {
  }

  lemma AtomIntValidate()
    ensures Validate(Atom(Int), VStr("foo")).Failure?
    ensures Validate(Atom(Int), VNone).Failure?
    ensures Validate(Atom(Int), VList([VInt(1), VInt(2), VInt(3)])).Failure?
    ensures Validate(Atom(Int), VInt(5)) == Success(VInt(5))
    ensures Validate(Atom(Int), VBool(true)) == Success(VBool(true))
  {
    AtomValidate(Int, VStr("foo"));
    AtomValidate(Int, VNone);
    AtomValidate(Int, VList([VInt(1), VInt(2), VInt(3)]));
    AtomValidate(Int, VInt(5));
    AtomValidate(Int, VBool(true));
  }

  // Model

  /** spec_fields() of the tests. */
  const Fields: Spec :=
    Model([("name", Atom(Str)), ("age", Atom(Int)), ("height", Atom(Float)), ("verified", Atom(Bool))])

  /** A record with the three fields every case of the tests shares and
      a fourth entry. */
  function Person(name: string, age: int, height: real, last: (Value, Value)): seq<(Value, Value)> {
    [(VStr("name"), VStr(name)), (VStr("age"), VInt(age)), (VStr("height"), VFloat(height)), last]
  }

  /** spec_fields() as a dict description. */
  const FieldsDict: seq<(Value, Value)> :=
    [(VStr("name"), VType(Str)), (VStr("age"), VType(Int)),
     (VStr("height"), VSpec(Atom(Float))), (VStr("verified"), VType(Bool))]

  /** SimpleNamespace(**spec_fields()): the same description as attributes. */
  const FieldsAttrs: seq<(string, Value)> :=
    [("name", VType(Str)), ("age", VType(Int)), ("height", VSpec(Atom(Float))), ("verified", VType(Bool))]

  lemma FieldsDictDistinct()
    ensures DistinctKeys(FieldsDict)
  {
  }

  lemma FieldsDictDescribes()
    ensures Describes(FieldsDict, Fields.fields)
  {
  }

  lemma FieldsAttrsKeyed()
    ensures StrKeyed(FieldsAttrs) == FieldsDict
  {
    assert |StrKeyed(FieldsAttrs)| == 4;
  }

  lemma ModelFromDict()
    ensures NewModel(VDict(FieldsDict)) == Success(Fields)
  {
    FieldsDictDistinct();
    FieldsDictDescribes();
    NewModelOf(FieldsDict, Fields.fields);
  }

  lemma ModelFromObject()
    ensures NewModel(VNamespace(FieldsAttrs)) == Success(Fields)
  {
    NewModelFromNamespace(FieldsAttrs);
    FieldsAttrsKeyed();
    ModelFromDict();
  }

  /** Every entry of spec_fields() is accepted by the construction loop. */
  lemma FieldsDictAccepted()
    ensures forall i :: 0 <= i < |FieldsDict| ==> EntryAccepted(FieldsDict[i])
  {
  }

  /** spec_fields({1: bool}): the fifth key is not a str. */
  lemma ModelRefusesIntKey()
    ensures NewModel(VDict(FieldsDict + [(VInt(1), VType(Bool))])) ==
      Failure(SchemaError(Building(ModelClass), KeysMustBeStr))
  {
    var entries := FieldsDict + [(VInt(1), VType(Bool))];
    FieldsDictAccepted();
    assert forall i :: 0 <= i < 4 ==> entries[i] == FieldsDict[i];
    assert !EntryAccepted(entries[4]);
    NewModelFirstFailure(entries, 4);
  }

  /** spec_fields({('x', 'y'): str}): the fifth key is a tuple. */
  lemma ModelRefusesTupleKey()
    ensures NewModel(VDict(FieldsDict + [(VTuple([VStr("x"), VStr("y")]), VType(Str))])) ==
      Failure(SchemaError(Building(ModelClass), KeysMustBeStr))
  {
    var entries := FieldsDict + [(VTuple([VStr("x"), VStr("y")]), VType(Str))];
    FieldsDictAccepted();
    assert forall i :: 0 <= i < 4 ==> entries[i] == FieldsDict[i];
    assert !EntryAccepted(entries[4]);
    NewModelFirstFailure(entries, 4);
  }

  /** spec_fields({'name': 'bob'}): the merge overwrites 'name' in its
      first position, and 'bob' is neither a class nor a node. */
  lemma ModelRefusesValue()
    ensures NewModel(VDict(FieldsDict[0 := (VStr("name"), VStr("bob"))])) ==
      Failure(SchemaError(Building(ModelClass), WrongType("Spec or type", "'str'")))
  {
    var entries := FieldsDict[0 := (VStr("name"), VStr("bob"))];
    assert Quote(Utils.TypeName(VStr("bob"))) == "'str'";
    assert !EntryAccepted(entries[0]);
    NewModelFirstFailure(entries, 0);
  }

  /** Model({'name': str}), the nested node of the tests. */
  const Kids: Spec := Model([("name", Atom(Str))])

  lemma KidsNodeBuilds()
    ensures NewModel(VDict([(VStr("name"), VType(Str))])) == Success(Kids)
  {
    NewModelOf([(VStr("name"), VType(Str))], Kids.fields);
  }

  /** spec_fields({'kids': kids}) as a dict description, and the fields
      of the Model it builds. */
  const NestedDict: seq<(Value, Value)> :=
    [(VStr("name"), VType(Str)), (VStr("age"), VType(Int)),
     (VStr("height"), VSpec(Atom(Float))), (VStr("verified"), VType(Bool)), (VStr("kids"), VSpec(Kids))]
  const NestedFields: seq<(string, Spec)> :=
    [("name", Atom(Str)), ("age", Atom(Int)), ("height", Atom(Float)), ("verified", Atom(Bool)), ("kids", Kids)]

  /** Model(spec_fields({'kids': kids})) keeps the node `kids` as its fifth
      field, and that node maps 'name' to Atom(str). */
  lemma ModelOfNestedSpec()
    ensures NestedDict == FieldsDict + [(VStr("kids"), VSpec(Kids))]
    ensures NewModel(VDict(NestedDict)) == Success(Model(NestedFields))
    ensures ModelInner(Model(NestedFields), Some(VStr("kids")), None) == Success(VSpec(Kids))
    ensures ModelInner(Kids, Some(VStr("name")), None) == Success(VSpec(Atom(Str)))
  {
    NestedDictDistinct();
    NestedDictDescribes();
    NewModelOf(NestedDict, NestedFields);
    NestedFieldsDistinct();
    ModelInnerFound(Model(NestedFields), 4, None);
    ModelInnerFound(Kids, 0, None);
  }

  lemma NestedDictDistinct()
    ensures DistinctKeys(NestedDict)
  {
  }

  lemma NestedDictDescribes()
    ensures Describes(NestedDict, NestedFields)
  {
  }

  lemma NestedFieldsDistinct()
    ensures DistinctNames(NestedFields)
  {
  }

  lemma ModelCounts()
    ensures Validate(Fields, VDict(Person("bob", 13, 33.3, (VStr("verified"), VBool(true)))[..3])) ==
      Failure(ValidationError(Fields, TooFewItems(4, 3)))
    ensures Validate(Fields, VDict(Person("bob", 13, 33.3, (VStr("verified"), VBool(true))) + [(VStr("greeting"), VStr("hello"))])) ==
      Failure(ValidationError(Fields, TooManyItems(4, 5)))
  {
    ModelFailureOrder(Fields, VDict(Person("bob", 13, 33.3, (VStr("verified"), VBool(true)))[..3]));
    ModelFailureOrder(Fields, VDict(Person("bob", 13, 33.3, (VStr("verified"), VBool(true))) + [(VStr("greeting"), VStr("hello"))]));
  }

  /** The first three fields pass whatever the fourth entry is. */
  lemma FirstThreePass(name: string, age: int, height: real, last: (Value, Value))
    ensures forall j :: 0 <= j < 3 ==> FieldPasses(Fields, Person(name, age, height, last), j)
  {
    PersonFinds(name, age, height, last);
    AtomValidate(Str, VStr(name));
    AtomValidate(Int, VInt(age));
    AtomValidate(Float, VFloat(height));
  }

  /** The first three keys of a record are found where they stand. */
  lemma PersonFinds(name: string, age: int, height: real, last: (Value, Value))
    ensures var entries := Person(name, age, height, last);
      Find(entries, VStr("name")) == 0 && Find(entries, VStr("age")) == 1 && Find(entries, VStr("height")) == 2
  {
    var entries := Person(name, age, height, last);
    FindAt(entries, VStr("name"), 0);
    FindAt(entries, VStr("age"), 1);
    FindAt(entries, VStr("height"), 2);
  }

  /** {'name': 'bob', 'age': 13, 'height': 33.3, 'greeting': 'hello'}, or
      any record whose fourth key is not 'verified'. */
  lemma ModelMissingField(name: string, age: int, height: real, key: string, v: Value)
    requires key != "verified"
    ensures Validate(Fields, VDict(Person(name, age, height, (VStr(key), v)))) ==
      Failure(ValidationError(Fields, FieldNotFound("verified")))
  {
    var entries := Person(name, age, height, (VStr(key), v));
    FirstThreePass(name, age, height, (VStr(key), v));
    FindAbsent(entries, VStr("verified"));
    ModelFirstFailure(Fields, VDict(entries), 3);
  }

  /** 'verified': 'yes', or any value that is not a bool. */
  lemma ModelWrongFieldType(name: string, age: int, height: real, v: Value)
    requires !IsInstance(v, Bool)
    ensures Validate(Fields, VDict(Person(name, age, height, (VStr("verified"), v)))) ==
      Failure(ValidationError(Atom(Bool), WrongBaseType("'bool'", Quote(Utils.TypeName(v)))))
  {
    var entries := Person(name, age, height, (VStr("verified"), v));
    FirstThreePass(name, age, height, (VStr("verified"), v));
    FindAt(entries, VStr("verified"), 3);
    assert Quote(ClassName(Bool)) == "'bool'";
    ModelFirstFailure(Fields, VDict(entries), 3);
  }

  /** The happy path gives back an equal mapping. */
  lemma ModelHappyPath(name: string, age: int, height: real, verified: bool)
    ensures Validate(Fields, VDict(Person(name, age, height, (VStr("verified"), VBool(verified))))) ==
      Success(VDict(Person(name, age, height, (VStr("verified"), VBool(verified)))))
  {
    var entries := Person(name, age, height, (VStr("verified"), VBool(verified)));
    FirstThreePass(name, age, height, (VStr("verified"), VBool(verified)));
    FindAt(entries, VStr("verified"), 3);
    assert FieldPasses(Fields, entries, 3);
    ModelValidateIff(Fields, VDict(entries));
  }

  lemma ModelInnerMissingKeys()
    ensures ModelInner(Fields, Some(VInt(5)), None) == Failure(SchemaError(Node(Fields), KeyNotFound(VInt(5))))
    ensures ModelInner(Fields, Some(VStr("greeting")), None) == Failure(SchemaError(Node(Fields), KeyNotFound(VStr("greeting"))))
  {
    ModelInnerMissing(Fields, VInt(5), None);
    ModelInnerMissing(Fields, VStr("greeting"), None);
  }

  lemma ModelInnerDefaults()
    ensures ModelInner(Fields, Some(VFloat(6.6)), Some(VStr("foo"))) == Success(VStr("foo"))
    ensures ModelInner(Fields, Some(VStr("greeting")), Some(VType(Str))) == Success(VType(Str))
  {
    ModelInnerMissing(Fields, VFloat(6.6), Some(VStr("foo")));
    ModelInnerMissing(Fields, VStr("greeting"), Some(VType(Str)));
  }

  lemma ModelInnerField()
    ensures ModelInner(Fields, Some(VStr("age")), None) == Success(VSpec(Atom(Int)))
    ensures Inner(Atom(Int)) == VType(Int)
  {
    ModelInnerFound(Fields, 1, None);
  }

  lemma InnermostCases()
    ensures InnermostOf(Seq(Seq(Atom(Int)))) == VType(Int)
    ensures InnermostOf(Atom(Str)) == VType(Str)
    ensures InnermostOf(Fields) == Inner(Fields)
  {
  }

  // Map

  lemma MapOfTypes()
    ensures NewMap(VTuple([VType(Str), VType(Int)])) == Success(Map(Atom(Str), Atom(Int)))
  {
    PairItems(VType(Str), VType(Int));
    PairAsMap(VTuple([VType(Str), VType(Int)]), Atom(Str), Atom(Int));
  }

  lemma MapFromList()
    ensures NewMap(VList([VType(Int), VType(Dict)])) == Success(Map(Atom(Int), Atom(Dict)))
  {
    PairItems(VType(Int), VType(Dict));
    PairAsMap(VList([VType(Int), VType(Dict)]), Atom(Int), Atom(Dict));
  }

  lemma MapOfNodes()
    ensures NewMap(VTuple([VSpec(Seq(Atom(Bool))), VType(Int)])) == Success(Map(Seq(Atom(Bool)), Atom(Int)))
  {
    PairItems(VSpec(Seq(Atom(Bool))), VType(Int));
    PairAsMap(VTuple([VSpec(Seq(Atom(Bool))), VType(Int)]), Seq(Atom(Bool)), Atom(Int));
  }

  /** Map((str, Seq(bool))) keeps the Seq node as value; `.key` and
      `.value` are the node's key and value. */
  lemma MapOfNestedValue()
    ensures NewSeq(VType(Bool)) == Success(Seq(Atom(Bool)))
    ensures NewMap(VTuple([VType(Str), VSpec(Seq(Atom(Bool)))])) == Success(Map(Atom(Str), Seq(Atom(Bool))))
  {
    PairItems(VType(Str), VSpec(Seq(Atom(Bool))));
    PairAsMap(VTuple([VType(Str), VSpec(Seq(Atom(Bool)))]), Atom(Str), Seq(Atom(Bool)));
  }

  lemma PairItems(a: Value, b: Value)
    ensures IsInstance(VTuple([a, b]), Sequence) && Items(VTuple([a, b])) == [a, b]
    ensures IsInstance(VList([a, b]), Sequence) && Items(VList([a, b])) == [a, b]
  {
  }

  /** A two-item sequence whose items give a hashable key node and a value
      node builds that Map. */
  lemma PairAsMap(raw: Value, key: Spec, val: Spec)
    requires IsInstance(raw, Sequence) && |Items(raw)| == 2
    requires SpecOrType(MapClass, Items(raw)[0]) == Success(key) && SpecOrType(MapClass, Items(raw)[1]) == Success(val)
    requires Hashable(BaseType(key))
    ensures NewMap(raw) == Success(Map(key, val))
  {
  }

  lemma MapRefusesNonSequences()
    ensures NewMap(VInt(52)).Failure?
    ensures NewMap(VDict([(VStr("x"), VInt(3)), (VStr("y"), VInt(6))])).Failure?
  {
    assert !IsInstance(VInt(52), Sequence);
    assert !IsInstance(VDict([(VStr("x"), VInt(3)), (VStr("y"), VInt(6))]), Sequence);
  }

  lemma MapRefusesString()
    ensures NewMap(VStr("xo")) == Failure(SchemaError(Building(MapClass), WrongType("Spec or type", "'str'")))
  {
    assert Items(VStr("xo")) == [VStr("x"), VStr("o")];
    assert Quote(Utils.TypeName(VStr("x"))) == "'str'";
  }

  lemma MapRefusesWrongLength()
    ensures NewMap(VTuple([VType(Int), VType(Str), VType(Bool)])).Failure?
    ensures NewMap(VTuple([VType(Int)])).Failure?
  {
  }

  lemma MapRefusesDictKey()
    ensures NewMap(VTuple([VType(Dict), VType(Float)])) ==
      Failure(SchemaError(Building(MapClass), UnhashableKey("'Atom'")))
  {
    PairItems(VType(Dict), VType(Float));
    UnhashableKeyOf(VTuple([VType(Dict), VType(Float)]), Atom(Dict), Atom(Float));
    Utils.SpecInstanceAndClassDisagree(Atom(Dict));
    QuotedNames();
  }

  lemma MapRefusesListKey()
    ensures NewMap(VTuple([VType(List), VType(Float)])) ==
      Failure(SchemaError(Building(MapClass), UnhashableKey("'Atom'")))
  {
    PairItems(VType(List), VType(Float));
    UnhashableKeyOf(VTuple([VType(List), VType(Float)]), Atom(List), Atom(Float));
    Utils.SpecInstanceAndClassDisagree(Atom(List));
    QuotedNames();
  }

  // Seq

  /** Seq(str) and Seq(dict) wrap their class as an Atom element. */
  lemma SeqOfTypes()
    ensures NewSeq(VType(Str)) == Success(Seq(Atom(Str)))
    ensures NewSeq(VType(Dict)) == Success(Seq(Atom(Dict)))
  {
  }

  /** Seq(kids) keeps the node `kids` as its element, whose 'name' field
      is Atom(str). */
  lemma SeqOfNestedSpec()
    ensures NewSeq(VSpec(Kids)) == Success(Seq(Kids))
    ensures ModelInner(Kids, Some(VStr("name")), None) == Success(VSpec(Atom(Str)))
  {
    ModelInnerFound(Kids, 0, None);
  }

  lemma SeqRefusesNonSequences()
    ensures Validate(Seq(Atom(Int)), VInt(5)).Failure?
    ensures Validate(Seq(Atom(Int)), VDict([(VInt(1), VInt(2))])).Failure?
  {
  }

  lemma SeqRefusesStrings()
    ensures Validate(Seq(Atom(Int)), VTuple([VStr("foo"), VStr("bar"), VStr("baz")])) ==
      Failure(ValidationError(Atom(Int), WrongBaseType("'int'", "'str'")))
  {
    assert Quote(ClassName(Int)) == "'int'";
    assert Quote(Utils.TypeName(VStr("foo"))) == "'str'";
    SeqFirstFailure(Seq(Atom(Int)), VTuple([VStr("foo"), VStr("bar"), VStr("baz")]), 0);
  }

  lemma SeqRefusesFloat()
    ensures Validate(Seq(Atom(Int)), VList([VInt(1), VInt(2), VFloat(3.3)])) ==
      Failure(ValidationError(Atom(Int), WrongBaseType("'int'", "'float'")))
  {
    assert Quote(ClassName(Int)) == "'int'";
    assert Quote(Utils.TypeName(VFloat(3.3))) == "'float'";
    var v := VList([VInt(1), VInt(2), VFloat(3.3)]);
    assert Validate(Atom(Int), Items(v)[0]).Success? && Validate(Atom(Int), Items(v)[1]).Success?;
    SeqFirstFailure(Seq(Atom(Int)), v, 2);
  }

  lemma SeqOfInts()
    ensures Validate(Seq(Atom(Int)), VList([VInt(1), VInt(2), VInt(3)])) == Success(VList([VInt(1), VInt(2), VInt(3)]))
  {
    var v := VList([VInt(1), VInt(2), VInt(3)]);
    assert Items(v) == [VInt(1), VInt(2), VInt(3)];
    AtomValidate(Int, VInt(1));
    AtomValidate(Int, VInt(2));
    AtomValidate(Int, VInt(3));
    SeqAcceptsAll(Seq(Atom(Int)), v);
  }

  const Kid: Spec := Model([("name", Atom(Str)), ("age", Atom(Int))])

  function KidRecord(name: string, age: int): Value {
    VDict([(VStr("name"), VStr(name)), (VStr("age"), VInt(age))])
  }

  lemma KidValidates(name: string, age: int)
    ensures Validate(Kid, KidRecord(name, age)) == Success(KidRecord(name, age))
  {
    var entries := KidRecord(name, age).entries;
    FindAt(entries, VStr("name"), 0);
    FindAt(entries, VStr("age"), 1);
    AtomValidate(Str, VStr(name));
    AtomValidate(Int, VInt(age));
    ModelAcceptsAll(Kid, entries);
  }

  /** A Seq whose element passes both items of a two-item list. */
  lemma SeqOfTwo(s: Spec, u: Value, w: Value)
    requires s.Seq? && Validate(s.elem, u).Success? && Validate(s.elem, w).Success?
    ensures Validate(s, VList([u, w])) == Success(VList([u, w]))
  {
    assert Items(VList([u, w])) == [u, w];
    SeqAcceptsAll(s, VList([u, w]));
  }

  /** A Seq of Kid models passes a list of two such records unchanged
      (the test uses bob, 33 and sue, 66). */
  lemma SeqOfModels(a: string, x: int, b: string, y: int)
    ensures var people := VList([KidRecord(a, x), KidRecord(b, y)]);
      Validate(Seq(Kid), people) == Success(people)
  {
    KidValidates(a, x);
    KidValidates(b, y);
    SeqOfTwo(Seq(Kid), KidRecord(a, x), KidRecord(b, y));
  }

  // Equality

  /** Model(SimpleNamespace(**fields)) == Model(fields) holds. */
  lemma NamespaceModelEqualsDictModel()
    ensures var fromObject := NewModel(VNamespace(FieldsAttrs));
      var fromDict := NewModel(VDict(FieldsDict));
      fromObject.Success? && fromDict.Success? && SpecEq(fromObject.value, fromDict.value) == Success(true)
  {
    ModelFromDict();
    ModelFromObject();
    FieldsEqualsItself();
  }

  lemma FieldsEqualsItself()
    ensures SpecEq(Fields, Fields) == Success(true)
  {
    assert WellFormed(Fields);
    SpecEqReflexive(Fields);
  }
}
