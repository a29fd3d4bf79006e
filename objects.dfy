/** The Python objects the schema engine handles: a closed universe of
    class objects, the runtime values that may be validated or used as schema
    descriptions, and the Spec nodes themselves (a Spec instance is a Python
    value too, so the node tree lives beside the values it can appear in).

    Python's reflection (`type`, `isinstance`, `issubclass` over the ABCs of
    collections.abc, metaclasses, `__hash__ is None`) is represented by total
    functions over this universe. */
module Objects {

  /** The classes of the Spec hierarchy in datalayer/specs.py. */
  datatype SpecClassName =
    | SpecBase          // Spec, the abstract root
    | AtomClass         // Atom
    | CompoundClass     // CompoundSpec
    | ModelClass        // Model
    | MapClass          // Map
    | SeqClass          // Seq

  /** Class objects. */
  datatype PyType =
    | Object | NoneType | Bool | Int | Float | Str | List | Tuple | Dict
    | SimpleNamespace                 // types.SimpleNamespace
    | Type                            // the metaclass `type`
    | ABCMeta                         // abc.ABCMeta
    | Container | Sequence | Mapping  // collections.abc
    | SpecClass(cls: SpecClassName)
    | UserClass(name: string)         // a plain `class X: ...` statement

  /** A schema node. A Model keeps its fields in declaration order; a Map
      holds its (key, value) pair of nodes. */
  datatype Spec =
    | Atom(t: PyType)
    | Model(fields: seq<(string, Spec)>)
    | Map(key: Spec, val: Spec)
    | Seq(elem: Spec)

  /** Python values. A dict is an association list in insertion order. */
  datatype Value =
    | VNone
    | VBool(b: bool)
    | VInt(i: int)
    | VFloat(r: real)
    | VStr(s: string)
    | VList(items: seq<Value>)
    | VTuple(items: seq<Value>)
    | VDict(entries: seq<(Value, Value)>)
    | VNamespace(attrs: seq<(string, Value)>)
    | VInstance(className: string, attrs: seq<(string, Value)>)
    | VType(t: PyType)
    | VSpec(node: Spec)

  function ClassOf(s: Spec): SpecClassName {
    match s
    case Atom(_) => AtomClass
    case Model(_) => ModelClass
    case Map(_, _) => MapClass
    case Seq(_) => SeqClass
  }

  /** `issubclass(a, b)`, including the registrations of the builtins with
      the collections.abc ABCs. */
  predicate IsSubclass(a: PyType, b: PyType) {
    a == b || b == Object ||
    match a
    case Bool => b == Int
    case Str => b == Sequence || b == Container
    case List => b == Sequence || b == Container
    case Tuple => b == Sequence || b == Container
    case Dict => b == Mapping || b == Container
    case Sequence => b == Container
    case Mapping => b == Container
    case ABCMeta => b == Type
    case SpecClass(c) =>
      b == SpecClass(SpecBase) ||
      (b == SpecClass(CompoundClass) && (c == ModelClass || c == MapClass || c == SeqClass))
    case _ => false
  }

  /** `type(t)` for a class object `t`: the ABCs and the Spec classes are
      built by ABCMeta, every other class by `type`. */
  function Metaclass(t: PyType): PyType {
    match t
    case Container => ABCMeta
    case Sequence => ABCMeta
    case Mapping => ABCMeta
    case SpecClass(_) => ABCMeta
    case _ => Type
  }

  /** `type(v)`. */
  function TypeOf(v: Value): PyType {
    match v
    case VNone => NoneType
    case VBool(_) => Bool
    case VInt(_) => Int
    case VFloat(_) => Float
    case VStr(_) => Str
    case VList(_) => List
    case VTuple(_) => Tuple
    case VDict(_) => Dict
    case VNamespace(_) => SimpleNamespace
    case VInstance(n, _) => UserClass(n)
    case VType(t) => Metaclass(t)
    case VSpec(s) => SpecClass(ClassOf(s))
  }

  /** `type(v) is str` holds of the str values only. */
  lemma OnlyStringsAreStr(v: Value)
    requires TypeOf(v) == Str
    ensures v.VStr?
  {
  }

  /** `isinstance(v, t)`. */
  predicate IsInstance(v: Value, t: PyType) {
    IsSubclass(TypeOf(v), t)
  }

  /** `t.__name__`. */
  function ClassName(t: PyType): string {
    match t
    case Object => "object"
    case NoneType => "NoneType"
    case Bool => "bool"
    case Int => "int"
    case Float => "float"
    case Str => "str"
    case List => "list"
    case Tuple => "tuple"
    case Dict => "dict"
    case SimpleNamespace => "SimpleNamespace"
    case Type => "type"
    case ABCMeta => "ABCMeta"
    case Container => "Container"
    case Sequence => "Sequence"
    case Mapping => "Mapping"
    case SpecClass(c) => SpecClassNameText(c)
    case UserClass(n) => n
  }

  function SpecClassNameText(c: SpecClassName): string {
    match c
    case SpecBase => "Spec"
    case AtomClass => "Atom"
    case CompoundClass => "CompoundSpec"
    case ModelClass => "Model"
    case MapClass => "Map"
    case SeqClass => "Seq"
  }

  /** `t.__hash__ is not None`: a class that defines `__eq__` without
      `__hash__` (list, dict, Mapping, SimpleNamespace, and Spec with every
      subclass) has its `__hash__` set to None. */
  predicate Hashable(t: PyType) {
    !(t == List || t == Dict || t == Mapping || t == SimpleNamespace || t.SpecClass?)
  }

  /** `hash(v)` does not raise. */
  predicate HashableValue(v: Value) {
    match v
    case VList(_) => false
    case VDict(_) => false
    case VNamespace(_) => false
    case VSpec(_) => false
    case VTuple(items) => forall i :: 0 <= i < |items| ==> HashableValue(items[i])
    case _ => true
  }

  /** Python dict lookup: the first position whose key equals `key`, or
      |entries| when the key is absent. The same lookup serves the dicts
      of values and the field mapping a Model keeps. */
  function Find<K(==), V>(entries: seq<(K, V)>, key: K): (k: nat)
    ensures k <= |entries|
    ensures k < |entries| ==> entries[k].0 == key
    ensures forall j :: 0 <= j < k ==> entries[j].0 != key
  {
    if entries == [] then 0
    else if entries[0].0 == key then 0
    else 1 + Find(entries[1..], key)
  }

  lemma FindAt<K, V>(entries: seq<(K, V)>, key: K, k: nat)
    requires k < |entries| && entries[k].0 == key
    requires forall j :: 0 <= j < k ==> entries[j].0 != key
    ensures Find(entries, key) == k
  {
  }

  lemma FindAbsent<K, V>(entries: seq<(K, V)>, key: K)
    requires forall j :: 0 <= j < |entries| ==> entries[j].0 != key
    ensures Find(entries, key) == |entries|
  {
  }

  /** The name `hash(v)` reports as unhashable: the first unhashable part
      of a tuple, or the value's own class. */
  function UnhashableName(v: Value): string
    requires !HashableValue(v)
  {
    match v
    case VTuple(items) =>
      var i := FirstUnhashable(items);
      UnhashableName(items[i])
    case _ => ClassName(TypeOf(v))
  }

  function FirstUnhashable(items: seq<Value>): (i: nat)
    requires exists j :: 0 <= j < |items| && !HashableValue(items[j])
    ensures i < |items| && !HashableValue(items[i])
    ensures forall j :: 0 <= j < i ==> HashableValue(items[j])
  {
    if !HashableValue(items[0]) then 0
    else
      assert exists j :: 0 <= j < |items[1..]| && !HashableValue(items[1..][j]) by {
        var j :| 0 <= j < |items| && !HashableValue(items[j]);
        assert items[1..][j - 1] == items[j];
      }
      1 + FirstUnhashable(items[1..])
  }

  /** The elements `for item in v` visits, for a value that is a Sequence:
      a string yields its one-character strings. */
  function Items(v: Value): (r: seq<Value>)
    requires IsInstance(v, Sequence)
    ensures v.VStr? ==> |r| == |v.s| && forall i :: 0 <= i < |r| ==> r[i] == VStr([v.s[i]])
    ensures !v.VStr? ==> r == v.items
  {
    if v.VStr? then seq(|v.s|, i requires 0 <= i < |v.s| => VStr([v.s[i]])) else v.items
  }

  /** The only values that are Mappings are dicts, and the only values
      that are Sequences are strings, lists and tuples. */
  lemma InstancesOfTheABCs(v: Value)
    ensures IsInstance(v, Mapping) <==> v.VDict?
    ensures IsInstance(v, Sequence) <==> (v.VStr? || v.VList? || v.VTuple?)
    ensures IsInstance(v, Type) <==> v.VType?
    ensures IsInstance(v, SpecClass(SpecBase)) <==> v.VSpec?
  {
  }

  /** No class is both a Mapping and a Sequence. */
  lemma MappingAndSequenceDisjoint(t: PyType)
    ensures !(IsSubclass(t, Mapping) && IsSubclass(t, Sequence))
  {
  }
}
