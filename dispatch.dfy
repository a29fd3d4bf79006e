/** datalayer/specs.py, `from_python` and the module-level `example`.
    The registry `TYPE_TO_SPEC` maps Mapping to Model and Sequence to Seq
    and is looked up by subclass, with Atom as the fallback. */
module Dispatch {
  import opened Wrappers
  import opened Objects
  import opened Specs
  import Utils

  /** The node class the registry picks for a value of class `t`. */
  function SpecClassFor(t: PyType): (c: SpecClassName)
    ensures c in {AtomClass, ModelClass, SeqClass}
  {
    if IsSubclass(t, Mapping) then ModelClass
    else if IsSubclass(t, Sequence) then SeqClass
    else AtomClass
  }

  /** from_python(data) */
  function FromPython(data: Value): Result<Spec, Error> {
    Construct(SpecClassFor(TypeOf(data)), data)
  }

  /** The registry never has to choose between its two entries, and it
      picks Model exactly for dicts and Seq exactly for strings, lists and
      tuples. */
  lemma SpecClassForValues(data: Value)
    ensures SpecClassFor(TypeOf(data)) == ModelClass <==> data.VDict?
    ensures SpecClassFor(TypeOf(data)) == SeqClass <==> (data.VStr? || data.VList? || data.VTuple?)
  {
    MappingAndSequenceDisjoint(TypeOf(data));
    InstancesOfTheABCs(data);
  }

  /** A dict is read as a Model description. */
  lemma FromPythonDict(entries: seq<(Value, Value)>)
    ensures FromPython(VDict(entries)) == NewModel(VDict(entries))
  {
  }

  /** A string, list or tuple goes to Seq, which wants a class or a node
      and not a sequence, so from_python never builds a Seq. */
  lemma FromPythonSequenceFails(data: Value)
    requires data.VStr? || data.VList? || data.VTuple?
    ensures FromPython(data) ==
      Failure(SchemaError(Building(SeqClass), WrongType("Spec or type", Quote(Utils.TypeName(data)))))
  {
    SpecClassForValues(data);
  }

  /** Everything else is handed to Atom: a class becomes an Atom, any other
      value is refused. */
  lemma FromPythonOther(data: Value)
    requires !data.VDict? && !data.VStr? && !data.VList? && !data.VTuple?
    ensures FromPython(data) == NewAtom(data)
    ensures FromPython(data).Success? <==> data.VType? && !data.t.SpecClass?
  {
    SpecClassForValues(data);
  }

  /** from_python({'foo': str}) is a Model. */
  lemma FromPythonExample()
    ensures FromPython(VDict([(VStr("foo"), VType(Str))])) == Success(Model([("foo", Atom(Str))]))
  {
    NewModelOf([(VStr("foo"), VType(Str))], [("foo", Atom(Str))]);
  }

  /** The description of one record of `example`, given its nodes. */
  function RecordDescription(colors: Spec, kids: Spec): Value {
    VDict([
      (VStr("name"), VType(Str)),
      (VStr("age"), VType(Int)),
      (VStr("colors"), VSpec(colors)),
      (VStr("kids"), VSpec(kids))])
  }

  /** The description of `example` itself, given its nodes. */
  function ExampleDescription(records: Spec, attributes: Spec): Value {
    VDict([
      (VStr("valid"), VType(Bool)),
      (VStr("tally"), VType(Int)),
      (VStr("records"), VSpec(records)),
      (VStr("attributes"), VSpec(attributes))])
  }

  /** The module-level `example`, built node by node in the order Python
      evaluates the nested constructor calls. */
  function Example(): Result<Spec, Error> {
    var colors :- NewSeq(VType(Str));
    var kids :- NewAtom(VType(List));
    var record :- NewModel(RecordDescription(colors, kids));
    var records :- NewSeq(VSpec(record));
    var attributes :- NewMap(VTuple([VType(Str), VType(Int)]));
    NewModel(ExampleDescription(records, attributes))
  }

  const ExampleRecord: Spec :=
    Model([("name", Atom(Str)), ("age", Atom(Int)), ("colors", Seq(Atom(Str))), ("kids", Atom(List))])

  const ExampleTree: Spec :=
    Model([
      ("valid", Atom(Bool)),
      ("tally", Atom(Int)),
      ("records", Seq(ExampleRecord)),
      ("attributes", Map(Atom(Str), Atom(Int)))])

  lemma ExampleRecordBuilds()
    ensures NewModel(RecordDescription(Seq(Atom(Str)), Atom(List))) == Success(ExampleRecord)
  {
    NewModelOf([
      (VStr("name"), VType(Str)),
      (VStr("age"), VType(Int)),
      (VStr("colors"), VSpec(Seq(Atom(Str)))),
      (VStr("kids"), VSpec(Atom(List)))], ExampleRecord.fields);
  }

  lemma ExampleTopBuilds()
    ensures NewModel(ExampleDescription(Seq(ExampleRecord), Map(Atom(Str), Atom(Int)))) == Success(ExampleTree)
  {
    NewModelOf([
      (VStr("valid"), VType(Bool)),
      (VStr("tally"), VType(Int)),
      (VStr("records"), VSpec(Seq(ExampleRecord))),
      (VStr("attributes"), VSpec(Map(Atom(Str), Atom(Int))))], ExampleTree.fields);
  }

  lemma ColorsBuilds()
    ensures NewSeq(VType(Str)) == Success(Seq(Atom(Str)))
  {
  }

  lemma KidsBuilds()
    ensures NewAtom(VType(List)) == Success(Atom(List))
  {
  }

  lemma RecordsBuilds()
    ensures NewSeq(VSpec(ExampleRecord)) == Success(Seq(ExampleRecord))
  {
  }

  lemma AttributesBuilds()
    ensures NewMap(VTuple([VType(Str), VType(Int)])) == Success(Map(Atom(Str), Atom(Int)))
  {
    assert Items(VTuple([VType(Str), VType(Int)])) == [VType(Str), VType(Int)];
  }

  /** Nested construction succeeds: `example` is the expected tree. */
  lemma ExampleBuilds()
    ensures Example() == Success(ExampleTree)
  {
    ColorsBuilds();
    KidsBuilds();
    ExampleRecordBuilds();
    RecordsBuilds();
    AttributesBuilds();
    ExampleTopBuilds();
  }

  /** The tree `example` builds is well-formed. */
  lemma ExampleWellFormed()
    ensures WellFormed(ExampleTree)
  {
    assert WellFormed(ExampleRecord);
  }
}
