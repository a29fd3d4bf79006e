/** datalayer/specs.py, validation phase: `Spec.validate` (the base-type
    check every kind starts with), `Model.validate` (count checks, then each
    declared field in order, overwriting the field with its child's result)
    and `Seq.validate` (every element in order, rebuilt into a container of
    the input's class). Atom and Map have no validate of their own. */
module Validation {
  import opened Wrappers
  import opened Objects
  import opened Specs
  import Utils

  /** Spec.validate: the value must be an instance of the node's base type.
      The expected class is named by its own name. */
  function BaseCheck(s: Spec, v: Value): (r: Result<Value, Error>)
    ensures r.Success? <==> IsInstance(v, BaseType(s))
    ensures r.Success? ==> r.value == v
    ensures r.Failure? ==> r.error == ValidationError(s, WrongBaseType(Quote(ClassName(BaseType(s))), Quote(Utils.TypeName(v))))
  {
    if !IsInstance(v, BaseType(s)) then
      Failure(ValidationError(s, WrongBaseType(Quote(ClassName(BaseType(s))), Quote(Utils.TypeName(v)))))
    else Success(v)
  }

  /** Spec.validate as written: the expected class is named by
      `typename(self.base_type)`, which names an ABC by its metaclass. */
  function BaseCheckAsWritten(s: Spec, v: Value): Result<Value, Error> {
    if !IsInstance(v, BaseType(s)) then
      Failure(ValidationError(s, WrongBaseType(Quote(Utils.TypeName(VType(BaseType(s)))), Quote(Utils.TypeName(v)))))
    else Success(v)
  }

  /** The state of a Model validation: the first failure, if any, and the
      dict's entries as they stand when the loop stops. */
  datatype Run = Run(failure: Option<Error>, entries: seq<(Value, Value)>)

  /** Seq.validate's rebuild, `cls(items)`: a list or tuple of the validated
      items; a string validates its characters and is given back. */
  function Rebuild(v: Value, items: seq<Value>): (r: Value)
    requires IsInstance(v, Sequence)
  {
    match v
    case VList(_) => VList(items)
    case VTuple(_) => VTuple(items)
    case VStr(_) => v
  }

  /** `spec.validate(value)`. */
  function Validate(s: Spec, v: Value): Result<Value, Error>
    decreases s, 1
  {
    var _ :- BaseCheck(s, v);
    match s
    case Atom(_) => Success(v)
    case Map(_, _) => Success(v)
    case Model(fields) =>
      var run := ValidateEntries(s, v.entries);
      if run.failure.Some? then Failure(run.failure.value) else Success(VDict(run.entries))
    case Seq(_) =>
      var items :- ValidateItems(s, Items(v));
      Success(Rebuild(v, items))
  }

  /** Model.validate on a mapping: too many entries, then too few, then
      the field loop. */
  function ValidateEntries(m: Spec, entries: seq<(Value, Value)>): Run
    requires m.Model?
    decreases m, 0, |m.fields| + 1
  {
    if |entries| > |m.fields| then Run(Some(ValidationError(m, TooManyItems(|m.fields|, |entries|))), entries)
    else if |entries| < |m.fields| then Run(Some(ValidationError(m, TooFewItems(|m.fields|, |entries|))), entries)
    else RunFields(m, 0, entries)
  }

  /** The field loop from the i-th declared field on: a missing field stops
      it, a child's failure stops it, a child's success overwrites the
      entry in place. */
  function RunFields(m: Spec, i: nat, entries: seq<(Value, Value)>): Run
    requires m.Model? && i <= |m.fields|
    decreases m, 0, |m.fields| - i
  {
    if i == |m.fields| then Run(None, entries)
    else
      var (name, child) := m.fields[i];
      var k := Find(entries, VStr(name));
      if k == |entries| then Run(Some(ValidationError(m, FieldNotFound(name))), entries)
      else
        match Validate(child, entries[k].1)
        case Failure(e) => Run(Some(e), entries)
        case Success(w) => RunFields(m, i + 1, entries[k := (entries[k].0, w)])
  }

  /** The generator of Seq.validate: every item through the element node,
      in order, the first failure aborting. */
  function ValidateItems(s: Spec, items: seq<Value>): Result<seq<Value>, Error>
    requires s.Seq?
    decreases s, 0, |items|
  {
    if items == [] then Success([])
    else
      var head :- Validate(s.elem, items[0]);
      var tail :- ValidateItems(s, items[1..]);
      Success([head] + tail)
  }

  /** The dict the validation leaves behind: a Model overwrites the fields
      it validated before it stopped; everything else leaves the value as
      it was. */
  function Mutated(s: Spec, v: Value): Value {
    if s.Model? && v.VDict? then VDict(ValidateEntries(s, v.entries).entries) else v
  }

  /** Corrected, every field is written back with a value equal to the
      one it held, so the dict is left as it was whether the loop
      completes or stops. */
  lemma ModelValidateLeavesValue(m: Spec, v: Value)
    requires m.Model?
    ensures Mutated(m, v) == v
  {
    if v.VDict? && |v.entries| == |m.fields| {
      RunFieldsLeavesEntries(m, 0, v.entries);
    }
  }

  lemma RunFieldsLeavesEntries(m: Spec, i: nat, entries: seq<(Value, Value)>)
    requires m.Model? && i <= |m.fields|
    ensures RunFields(m, i, entries).entries == entries
    decreases m, 0, |m.fields| - i
  {
    if i < |m.fields| {
      var k := Find(entries, VStr(m.fields[i].0));
      if k < |entries| {
        ValidateReturnsInput(m.fields[i].1, entries[k].1);
        assert entries[k := (entries[k].0, entries[k].1)] == entries;
        RunFieldsLeavesEntries(m, i + 1, entries);
      }
    }
  }

  /** A Python object reference, the identity Model.validate returns. */
  class Obj {
    var value: Value

    constructor (value: Value)
      ensures this.value == value
    {
      this.value := value;
    }
  }

  /** Model.validate in terms of its parts: the base check, then the run
      over the entries, whose entries are what the dict is left holding. */
  lemma ModelValidateUnfold(m: Spec, v: Value)
    requires m.Model?
    ensures !v.VDict? ==> Validate(m, v) == Failure(BaseCheck(m, v).error) && Mutated(m, v) == v
    ensures v.VDict? ==> BaseCheck(m, v).Success? && Mutated(m, v) == VDict(ValidateEntries(m, v.entries).entries)
    ensures v.VDict? && ValidateEntries(m, v.entries).failure.Some? ==>
      Validate(m, v) == Failure(ValidateEntries(m, v.entries).failure.value)
    ensures v.VDict? && ValidateEntries(m, v.entries).failure.None? ==>
      Validate(m, v) == Success(VDict(ValidateEntries(m, v.entries).entries))
  {
  }

  /** One turn of the field loop. */
  lemma RunFieldsUnfold(m: Spec, i: nat, entries: seq<(Value, Value)>)
    requires m.Model? && i < |m.fields|
    ensures var k := Find(entries, VStr(m.fields[i].0));
      if k == |entries| then RunFields(m, i, entries) == Run(Some(ValidationError(m, FieldNotFound(m.fields[i].0))), entries)
      else if Validate(m.fields[i].1, entries[k].1).Failure? then
        RunFields(m, i, entries) == Run(Some(Validate(m.fields[i].1, entries[k].1).error), entries)
      else
        RunFields(m, i, entries) ==
          RunFields(m, i + 1, entries[k := (entries[k].0, Validate(m.fields[i].1, entries[k].1).value)])
  {
  }

  /** Model.validate on the object `obj`: each declared field is
      overwritten in place, and on success the same object is returned. */
  method ValidateModel(m: Spec, obj: Obj) returns (r: Result<Obj, Error>)
    requires m.Model?
    modifies obj
    ensures obj.value == Mutated(m, old(obj.value))
    ensures Validate(m, old(obj.value)).Success? ==> r == Success(obj) && Validate(m, old(obj.value)) == Success(obj.value)
    ensures Validate(m, old(obj.value)).Failure? ==> r == Failure(Validate(m, old(obj.value)).error)
  {
    ModelValidateUnfold(m, obj.value);
    var check := BaseCheck(m, obj.value);
    if check.Failure? {
      return Failure(check.error);
    }
    var fields := m.fields;
    var n := |obj.value.entries|;
    if n > |fields| {
      return Failure(ValidationError(m, TooManyItems(|fields|, n)));
    }
    if n < |fields| {
      return Failure(ValidationError(m, TooFewItems(|fields|, n)));
    }
    for i := 0 to |fields|
      invariant obj.value.VDict?
      invariant RunFields(m, i, obj.value.entries) == ValidateEntries(m, old(obj.value).entries)
    {
      var (name, child) := fields[i];
      var entries := obj.value.entries;
      RunFieldsUnfold(m, i, entries);
      var k := Find(entries, VStr(name));
      if k == |entries| {
        return Failure(ValidationError(m, FieldNotFound(name)));
      }
      var w := Validate(child, entries[k].1);
      if w.Failure? {
        return Failure(w.error);
      }
      obj.value := VDict(entries[k := (entries[k].0, w.value)]);
    }
    return Success(obj);
  }

  // ---------------------------------------------------------------------
  // Validation gives back what it was given

  /** A successful validation returns a value equal to its input: for a
      Model the same mapping with every field reassigned to an equal value,
      for a Seq a container equal to the input. */
  lemma {:induction false} ValidateReturnsInput(s: Spec, v: Value)
    ensures Validate(s, v).Success? ==> Validate(s, v).value == v
    decreases s, 1
  {
    if BaseCheck(s, v).Success? {
      match s
      case Atom(_) =>
      case Map(_, _) =>
      case Model(fields) =>
        if |v.entries| == |fields| {
          RunFieldsKeepsEntries(s, 0, v.entries);
        }
      case Seq(_) =>
        ValidateItemsReturnInput(s, Items(v));
    }
  }

  lemma RunFieldsKeepsEntries(m: Spec, i: nat, entries: seq<(Value, Value)>)
    requires m.Model? && i <= |m.fields|
    ensures RunFields(m, i, entries).failure.None? ==> RunFields(m, i, entries).entries == entries
    decreases m, 0, |m.fields| - i
  {
    if i < |m.fields| {
      var (name, child) := m.fields[i];
      var k := Find(entries, VStr(name));
      if k < |entries| {
        ValidateReturnsInput(child, entries[k].1);
        if Validate(child, entries[k].1).Success? {
          assert entries[k := (entries[k].0, entries[k].1)] == entries;
          RunFieldsKeepsEntries(m, i + 1, entries);
        }
      }
    }
  }

  lemma {:induction false} ValidateItemsReturnInput(s: Spec, items: seq<Value>)
    requires s.Seq?
    ensures ValidateItems(s, items).Success? ==> ValidateItems(s, items).value == items
    decreases s, 0, |items|
  {
    if items != [] {
      ValidateReturnsInput(s.elem, items[0]);
      ValidateItemsReturnInput(s, items[1..]);
    }
  }

  // ---------------------------------------------------------------------
  // Model.validate

  /** The i-th declared field is present and its value passes the child. */
  predicate FieldPasses(m: Spec, entries: seq<(Value, Value)>, i: nat)
    requires m.Model? && i < |m.fields|
  {
    var k := Find(entries, VStr(m.fields[i].0));
    k < |entries| && Validate(m.fields[i].1, entries[k].1).Success?
  }

  /** What the i-th declared field raises when it does not pass. */
  function FieldError(m: Spec, entries: seq<(Value, Value)>, i: nat): Error
    requires m.Model? && i < |m.fields| && !FieldPasses(m, entries, i)
  {
    var k := Find(entries, VStr(m.fields[i].0));
    if k == |entries| then ValidationError(m, FieldNotFound(m.fields[i].0))
    else Validate(m.fields[i].1, entries[k].1).error
  }

  /** A field that passes leaves the dict as it was and hands over to the
      next field. */
  lemma RunFieldsPass(m: Spec, i: nat, entries: seq<(Value, Value)>)
    requires m.Model? && i < |m.fields| && FieldPasses(m, entries, i)
    ensures RunFields(m, i, entries) == RunFields(m, i + 1, entries)
  {
    var k := Find(entries, VStr(m.fields[i].0));
    ValidateReturnsInput(m.fields[i].1, entries[k].1);
    assert entries[k := (entries[k].0, entries[k].1)] == entries;
  }

  /** A field that does not pass stops the loop with its error. */
  lemma RunFieldsStop(m: Spec, i: nat, entries: seq<(Value, Value)>)
    requires m.Model? && i < |m.fields| && !FieldPasses(m, entries, i)
    ensures RunFields(m, i, entries) == Run(Some(FieldError(m, entries, i)), entries)
  {
  }

  lemma AllPassStep(m: Spec, i: nat, entries: seq<(Value, Value)>)
    requires m.Model? && i < |m.fields| && FieldPasses(m, entries, i)
    requires RunFields(m, i + 1, entries).failure.None? <==>
      forall j :: i + 1 <= j < |m.fields| ==> FieldPasses(m, entries, j)
    ensures RunFields(m, i, entries).failure.None? <==>
      forall j :: i <= j < |m.fields| ==> FieldPasses(m, entries, j)
  {
    RunFieldsPass(m, i, entries);
  }

  lemma RunFieldsSucceeds(m: Spec, i: nat, entries: seq<(Value, Value)>)
    requires m.Model? && i <= |m.fields|
    ensures RunFields(m, i, entries).failure.None? <==>
      forall j :: i <= j < |m.fields| ==> FieldPasses(m, entries, j)
    decreases |m.fields| - i
  {
    if i < |m.fields| {
      if FieldPasses(m, entries, i) {
        RunFieldsSucceeds(m, i + 1, entries);
        AllPassStep(m, i, entries);
      } else {
        NotAllPass(m, i, entries);
      }
    }
  }

  lemma NotAllPass(m: Spec, i: nat, entries: seq<(Value, Value)>)
    requires m.Model? && i < |m.fields| && !FieldPasses(m, entries, i)
    ensures RunFields(m, i, entries).failure.Some?
    ensures !forall j :: i <= j < |m.fields| ==> FieldPasses(m, entries, j)
  {
    RunFieldsStop(m, i, entries);
  }

  lemma RunFieldsFirstFailure(m: Spec, i: nat, entries: seq<(Value, Value)>, j: nat)
    requires m.Model? && i <= j < |m.fields|
    requires forall l :: i <= l < j ==> FieldPasses(m, entries, l)
    requires !FieldPasses(m, entries, j)
    ensures RunFields(m, i, entries).failure == Some(FieldError(m, entries, j))
    decreases j - i
  {
    if i < j {
      RunFieldsPass(m, i, entries);
      RunFieldsFirstFailure(m, i + 1, entries, j);
    } else {
      RunFieldsStop(m, i, entries);
    }
  }

  /** Model.validate succeeds exactly on a mapping with as many entries as
      declared fields, every declared field present and passing its child;
      it then returns the mapping unchanged. */
  lemma ModelValidateIff(m: Spec, v: Value)
    requires m.Model?
    ensures Validate(m, v).Success? <==>
      v.VDict? && |v.entries| == |m.fields| &&
      forall j :: 0 <= j < |m.fields| ==> FieldPasses(m, v.entries, j)
    ensures Validate(m, v).Success? ==> Validate(m, v).value == v
  {
    ModelValidateUnfold(m, v);
    if v.VDict? && |v.entries| == |m.fields| {
      RunFieldsSucceeds(m, 0, v.entries);
    }
    ValidateReturnsInput(m, v);
  }

  /** A Model passes a mapping with one entry per field when every field
      passes. */
  lemma ModelAcceptsAll(m: Spec, entries: seq<(Value, Value)>)
    requires m.Model? && |entries| == |m.fields|
    requires forall j :: 0 <= j < |m.fields| ==> FieldPasses(m, entries, j)
    ensures Validate(m, VDict(entries)) == Success(VDict(entries))
  {
    ModelValidateIff(m, VDict(entries));
  }

  /** The failures in their fixed order: not a mapping, too many entries,
      too few entries. */
  lemma ModelFailureOrder(m: Spec, v: Value)
    requires m.Model?
    ensures !v.VDict? ==>
      Validate(m, v) == Failure(ValidationError(m, WrongBaseType("'Mapping'", Quote(Utils.TypeName(v)))))
    ensures v.VDict? && |v.entries| > |m.fields| ==>
      Validate(m, v) == Failure(ValidationError(m, TooManyItems(|m.fields|, |v.entries|)))
    ensures v.VDict? && |v.entries| < |m.fields| ==>
      Validate(m, v) == Failure(ValidationError(m, TooFewItems(|m.fields|, |v.entries|)))
  {
    if v.VDict? {
      ModelValidateUnfold(m, v);
    } else {
      ModelRefusesNonDict(m, v);
    }
  }

  lemma ModelRefusesNonDict(m: Spec, v: Value)
    requires m.Model? && !v.VDict?
    ensures Validate(m, v) == Failure(ValidationError(m, WrongBaseType("'Mapping'", Quote(Utils.TypeName(v)))))
  {
    ModelValidateUnfold(m, v);
    assert Quote(ClassName(Mapping)) == "'Mapping'";
  }

  /** Then the first declared field, in schema order, that is missing or
      fails its child is the one raised. */
  lemma ModelFirstFailure(m: Spec, v: Value, j: nat)
    requires m.Model? && v.VDict? && |v.entries| == |m.fields| && j < |m.fields|
    requires forall l :: 0 <= l < j ==> FieldPasses(m, v.entries, l)
    requires !FieldPasses(m, v.entries, j)
    ensures Validate(m, v) == Failure(FieldError(m, v.entries, j))
  {
    RunFieldsFirstFailure(m, 0, v.entries, j);
  }

  /** Some declared field is named by the key. */
  predicate Declared(m: Spec, key: Value)
    requires m.Model?
  {
    exists f :: 0 <= f < |m.fields| && key == VStr(m.fields[f].0)
  }

  /** Whether it succeeds or stops early, the field loop keeps the dict's
      keys and their positions, and never touches an undeclared entry. */
  lemma RunFieldsKeepsKeys(m: Spec, i: nat, entries: seq<(Value, Value)>)
    requires m.Model? && i <= |m.fields|
    ensures var r := RunFields(m, i, entries).entries;
      |r| == |entries| &&
      (forall j :: 0 <= j < |r| ==> r[j].0 == entries[j].0) &&
      (forall j :: 0 <= j < |r| && !Declared(m, entries[j].0) ==> r[j] == entries[j])
    decreases |m.fields| - i
  {
    if i < |m.fields| {
      var (name, child) := m.fields[i];
      var k := Find(entries, VStr(name));
      if k < |entries| && Validate(child, entries[k].1).Success? {
        var next := entries[k := (entries[k].0, Validate(child, entries[k].1).value)];
        RunFieldsKeepsKeys(m, i + 1, next);
        assert Declared(m, entries[k].0);
      }
    }
  }

  /** What Model.validate leaves in the dict, on success or failure, has
      the same keys in the same positions, and only declared fields may
      hold new values. */
  lemma MutatedKeepsKeys(m: Spec, v: Value)
    requires m.Model? && v.VDict?
    ensures var r := Mutated(m, v).entries;
      |r| == |v.entries| &&
      (forall j :: 0 <= j < |r| ==> r[j].0 == v.entries[j].0) &&
      (forall j :: 0 <= j < |r| && !Declared(m, v.entries[j].0) ==> r[j] == v.entries[j])
  {
    if |v.entries| == |m.fields| {
      RunFieldsKeepsKeys(m, 0, v.entries);
    }
  }

  // ---------------------------------------------------------------------
  // Seq.validate

  lemma ValidateItemsIff(s: Spec, items: seq<Value>)
    requires s.Seq?
    ensures ValidateItems(s, items).Success? <==>
      forall i :: 0 <= i < |items| ==> Validate(s.elem, items[i]).Success?
    ensures ValidateItems(s, items).Success? ==>
      var r := ValidateItems(s, items).value;
      |r| == |items| && forall i :: 0 <= i < |items| ==> Validate(s.elem, items[i]) == Success(r[i])
  {
    ValidateItemsSucceeds(s, items);
    if ValidateItems(s, items).Success? {
      ValidateItemsResults(s, items);
    }
  }

  lemma {:induction false} ValidateItemsSucceeds(s: Spec, items: seq<Value>)
    requires s.Seq?
    ensures ValidateItems(s, items).Success? <==>
      forall i :: 0 <= i < |items| ==> Validate(s.elem, items[i]).Success?
    decreases |items|
  {
    if items != [] {
      ValidateItemsUnfold(s, items);
      ValidateItemsSucceeds(s, items[1..]);
      assert forall i :: 1 <= i < |items| ==> items[i] == items[1..][i - 1];
    }
  }

  lemma {:induction false} ValidateItemsResults(s: Spec, items: seq<Value>)
    requires s.Seq? && ValidateItems(s, items).Success?
    ensures var r := ValidateItems(s, items).value;
      |r| == |items| && forall i :: 0 <= i < |items| ==> Validate(s.elem, items[i]) == Success(r[i])
    decreases |items|
  {
    if items != [] {
      ValidateItemsUnfold(s, items);
      ValidateItemsResults(s, items[1..]);
      var r, tail := ValidateItems(s, items).value, ValidateItems(s, items[1..]).value;
      assert r == [Validate(s.elem, items[0]).value] + tail;
      assert forall i :: 1 <= i < |items| ==> items[i] == items[1..][i - 1];
    }
  }

  /** One step of the item pass. */
  lemma ValidateItemsUnfold(s: Spec, items: seq<Value>)
    requires s.Seq? && items != []
    ensures Validate(s.elem, items[0]).Failure? ==>
      ValidateItems(s, items) == Failure(Validate(s.elem, items[0]).error)
    ensures Validate(s.elem, items[0]).Success? && ValidateItems(s, items[1..]).Failure? ==>
      ValidateItems(s, items) == Failure(ValidateItems(s, items[1..]).error)
    ensures Validate(s.elem, items[0]).Success? && ValidateItems(s, items[1..]).Success? ==>
      ValidateItems(s, items) == Success([Validate(s.elem, items[0]).value] + ValidateItems(s, items[1..]).value)
  {
  }

  lemma {:induction false} ValidateItemsFirstFailure(s: Spec, items: seq<Value>, j: nat)
    requires s.Seq? && j < |items|
    requires forall i :: 0 <= i < j ==> Validate(s.elem, items[i]).Success?
    requires Validate(s.elem, items[j]).Failure?
    ensures ValidateItems(s, items) == Failure(Validate(s.elem, items[j]).error)
    decreases j
  {
    ValidateItemsUnfold(s, items);
    if j > 0 {
      assert forall i :: 0 <= i < j - 1 ==> items[1..][i] == items[i + 1];
      ValidateItemsFirstFailure(s, items[1..], j - 1);
      assert Validate(s.elem, items[0]).Success?;
    }
  }

  /** Seq.validate succeeds exactly on a sequence whose every item passes
      the element node; it then returns a container of the input's class,
      of the same length, holding each item's validated result in order. */
  lemma SeqValidateIff(s: Spec, v: Value)
    requires s.Seq?
    ensures Validate(s, v).Success? <==>
      IsInstance(v, Sequence) && forall i :: 0 <= i < |Items(v)| ==> Validate(s.elem, Items(v)[i]).Success?
    ensures Validate(s, v).Success? ==>
      var w := Validate(s, v).value;
      TypeOf(w) == TypeOf(v) && IsInstance(w, Sequence) && |Items(w)| == |Items(v)| &&
      forall i :: 0 <= i < |Items(v)| ==> Validate(s.elem, Items(v)[i]) == Success(Items(w)[i])
  {
    if IsInstance(v, Sequence) {
      ValidateItemsIff(s, Items(v));
      if v.VStr? && ValidateItems(s, Items(v)).Success? {
        ValidateItemsReturnInput(s, Items(v));
      }
    }
  }

  /** A Seq whose every item passes accepts the sequence and returns it. */
  lemma SeqAcceptsAll(s: Spec, v: Value)
    requires s.Seq? && IsInstance(v, Sequence)
    requires forall i :: 0 <= i < |Items(v)| ==> Validate(s.elem, Items(v)[i]).Success?
    ensures Validate(s, v) == Success(v)
  {
    SeqValidateIff(s, v);
    ValidateReturnsInput(s, v);
  }

  /** The first failing item, in order, is the one raised. */
  lemma SeqFirstFailure(s: Spec, v: Value, j: nat)
    requires s.Seq? && IsInstance(v, Sequence) && j < |Items(v)|
    requires forall i :: 0 <= i < j ==> Validate(s.elem, Items(v)[i]).Success?
    requires Validate(s.elem, Items(v)[j]).Failure?
    ensures Validate(s, v) == Failure(Validate(s.elem, Items(v)[j]).error)
  {
    ValidateItemsFirstFailure(s, Items(v), j);
  }

  /** A non-sequence is refused before any item is looked at. */
  lemma SeqRejectsNonSequence(s: Spec, v: Value)
    requires s.Seq? && !IsInstance(v, Sequence)
    ensures Validate(s, v) == Failure(ValidationError(s, WrongBaseType("'Sequence'", Quote(Utils.TypeName(v)))))
  {
    assert Quote(ClassName(Sequence)) == "'Sequence'";
  }

  // ---------------------------------------------------------------------
  // Atom and Map

  /** Atom(t) accepts exactly the instances of t, and gives them back. */
  lemma AtomValidate(t: PyType, v: Value)
    ensures Validate(Atom(t), v).Success? <==> IsInstance(v, t)
    ensures Validate(Atom(t), v).Success? ==> Validate(Atom(t), v).value == v
    ensures Validate(Atom(t), v).Failure? ==>
      Validate(Atom(t), v).error == ValidationError(Atom(t), WrongBaseType(Quote(ClassName(t)), Quote(Utils.TypeName(v))))
  {
  }

  /** Map has no validate of its own: every dict passes unchanged, whatever
      its keys and values, and nothing else passes. */
  lemma MapValidate(key: Spec, val: Spec, v: Value)
    ensures Validate(Map(key, val), v).Success? <==> v.VDict?
    ensures Validate(Map(key, val), v).Success? ==> Validate(Map(key, val), v).value == v
  {
  }

  // ---------------------------------------------------------------------
  // Finding: Seq.validate on a string

  /** The repr of the generator Seq.validate builds, at address `addr`. */
  function GeneratorRepr(addr: string): string {
    "<generator object Seq.validate.<locals>.<genexpr> at " + addr + ">"
  }

  /** What one call of the as-written validation gives: its result, and
      the state its input is left in by the in-place writes made on the
      way (dicts are updated in place, lists and tuples are not, but the
      dicts they hold are). */
  datatype Outcome = Outcome(result: Result<Value, Error>, after: Value)

  /** A Seq's item pass as written: the results so far, the first failure,
      and the items as they stand once the pass stops. */
  datatype Pass = Pass(failure: Option<Error>, results: seq<Value>, after: seq<Value>)

  /** `spec.validate(value)` as written, over the whole tree: the base
      check names the expected class by `typename(self.base_type)`, and a
      Seq node meeting a string, at any depth, gives back the repr of its
      generator (every generator is given the address `addr`). */
  function ValidateAsWritten(s: Spec, v: Value, addr: string): Outcome
    decreases s, 1
  {
    match BaseCheckAsWritten(s, v)
    case Failure(e) => Outcome(Failure(e), v)
    case Success(_) =>
      match s
      case Atom(_) => Outcome(Success(v), v)
      case Map(_, _) => Outcome(Success(v), v)
      case Model(fields) =>
        if |v.entries| > |fields| then Outcome(Failure(ValidationError(s, TooManyItems(|fields|, |v.entries|))), v)
        else if |v.entries| < |fields| then Outcome(Failure(ValidationError(s, TooFewItems(|fields|, |v.entries|))), v)
        else
          var run := RunFieldsAsWritten(s, 0, v.entries, addr);
          Outcome(if run.failure.Some? then Failure(run.failure.value) else Success(VDict(run.entries)), VDict(run.entries))
      case Seq(_) =>
        if v.VStr? then Outcome(Success(VStr(GeneratorRepr(addr))), v)
        else
          var pass := ItemsAsWritten(s, Items(v), addr);
          Outcome(if pass.failure.Some? then Failure(pass.failure.value) else Success(Rebuild(v, pass.results)),
                  Rebuild(v, pass.after))
  }

  /** Model.validate's field loop as written: the child's call leaves the
      entry's value in its after-state; on success the entry is then
      overwritten with the child's result, on failure the loop stops and
      every write made so far stays. */
  function RunFieldsAsWritten(m: Spec, i: nat, entries: seq<(Value, Value)>, addr: string): Run
    requires m.Model? && i <= |m.fields|
    decreases m, 0, |m.fields| - i
  {
    if i == |m.fields| then Run(None, entries)
    else
      var (name, child) := m.fields[i];
      var k := Find(entries, VStr(name));
      if k == |entries| then Run(Some(ValidationError(m, FieldNotFound(name))), entries)
      else
        var o := ValidateAsWritten(child, entries[k].1, addr);
        match o.result
        case Failure(e) => Run(Some(e), entries[k := (entries[k].0, o.after)])
        case Success(w) => RunFieldsAsWritten(m, i + 1, entries[k := (entries[k].0, w)], addr)
  }

  /** Seq.validate's generator as written, consumed by `list` or `tuple`:
      each item is validated in order, the first failure stopping it; the
      items reached are left in their after-states. */
  function ItemsAsWritten(s: Spec, items: seq<Value>, addr: string): Pass
    requires s.Seq?
    decreases s, 0, |items|
  {
    if items == [] then Pass(None, [], [])
    else
      var o := ValidateAsWritten(s.elem, items[0], addr);
      match o.result
      case Failure(e) => Pass(Some(e), [], [o.after] + items[1..])
      case Success(w) =>
        var rest := ItemsAsWritten(s, items[1..], addr);
        Pass(rest.failure, [w] + rest.results, [o.after] + rest.after)
  }

  /** Corrected, Seq(str) passes every string and gives it back. */
  lemma SeqOfStrAcceptsStrings(text: string)
    ensures Validate(Seq(Atom(Str)), VStr(text)) == Success(VStr(text))
  {
    SeqOnStringValidatesCharacters(Seq(Atom(Str)), text);
    forall i | 0 <= i < |text|
      ensures Validate(Atom(Str), VStr([text[i]])).Success?
    {
      AtomValidate(Str, VStr([text[i]]));
    }
  }

  /** As written, Model.validate on a dict with one entry per field is its
      field loop. */
  lemma ModelAsWrittenUnfold(m: Spec, entries: seq<(Value, Value)>, addr: string)
    requires m.Model? && |entries| == |m.fields|
    ensures var run := RunFieldsAsWritten(m, 0, entries, addr);
      ValidateAsWritten(m, VDict(entries), addr) ==
        Outcome(if run.failure.Some? then Failure(run.failure.value) else Success(VDict(run.entries)), VDict(run.entries))
  {
    assert IsInstance(VDict(entries), BaseType(m));
  }

  /** One turn of the as-written field loop, at a field that is present. */
  lemma RunFieldsAsWrittenUnfold(m: Spec, i: nat, entries: seq<(Value, Value)>, addr: string, k: nat)
    requires m.Model? && i < |m.fields| && k == Find(entries, VStr(m.fields[i].0)) && k < |entries|
    ensures var o := ValidateAsWritten(m.fields[i].1, entries[k].1, addr);
      RunFieldsAsWritten(m, i, entries, addr) ==
        if o.result.Failure? then Run(Some(o.result.error), entries[k := (entries[k].0, o.after)])
        else RunFieldsAsWritten(m, i + 1, entries[k := (entries[k].0, o.result.value)], addr)
  {
  }

  /** As written, Seq.validate on a list is the item pass. */
  lemma ListAsWrittenUnfold(s: Spec, items: seq<Value>, addr: string)
    requires s.Seq?
    ensures var pass := ItemsAsWritten(s, items, addr);
      ValidateAsWritten(s, VList(items), addr) ==
        Outcome(if pass.failure.Some? then Failure(pass.failure.value) else Success(VList(pass.results)), VList(pass.after))
  {
    assert IsInstance(VList(items), BaseType(s));
  }

  /** As written, whether it succeeds or stops early, Model.validate
      leaves a dict with the same keys in the same positions, touches no
      undeclared entry, and on success returns that very dict. */
  lemma ModelAsWrittenKeepsKeys(m: Spec, v: Value, addr: string)
    requires m.Model? && v.VDict?
    ensures var o := ValidateAsWritten(m, v, addr);
      o.after.VDict? && |o.after.entries| == |v.entries| &&
      (forall j :: 0 <= j < |v.entries| ==> o.after.entries[j].0 == v.entries[j].0) &&
      (forall j :: 0 <= j < |v.entries| && !Declared(m, v.entries[j].0) ==> o.after.entries[j] == v.entries[j]) &&
      (o.result.Success? ==> o.result.value == o.after)
  {
    if |v.entries| == |m.fields| {
      ModelAsWrittenUnfold(m, v.entries, addr);
      RunFieldsAsWrittenKeepsKeys(m, 0, v.entries, addr);
    }
  }

  lemma RunFieldsAsWrittenKeepsKeys(m: Spec, i: nat, entries: seq<(Value, Value)>, addr: string)
    requires m.Model? && i <= |m.fields|
    ensures var r := RunFieldsAsWritten(m, i, entries, addr).entries;
      |r| == |entries| &&
      (forall j :: 0 <= j < |r| ==> r[j].0 == entries[j].0) &&
      (forall j :: 0 <= j < |r| && !Declared(m, entries[j].0) ==> r[j] == entries[j])
    decreases |m.fields| - i
  {
    if i < |m.fields| {
      var k := Find(entries, VStr(m.fields[i].0));
      if k < |entries| {
        assert Declared(m, entries[k].0);
        var o := ValidateAsWritten(m.fields[i].1, entries[k].1, addr);
        if o.result.Success? {
          RunFieldsAsWrittenKeepsKeys(m, i + 1, entries[k := (entries[k].0, o.result.value)], addr);
        }
      }
    }
  }

  /** As written, any string passes any Seq node and comes back as the
      text of a generator's repr, whatever its characters; the string
      itself is left as it was. */
  lemma SeqOnStringAsWritten(s: Spec, text: string, addr: string)
    requires s.Seq?
    ensures ValidateAsWritten(s, VStr(text), addr) == Outcome(Success(VStr(GeneratorRepr(addr))), VStr(text))
  {
  }

  /** Seq(int).validate('ab'): as written it passes and returns something
      other than 'ab'; the corrected validation rejects the item 'a'. */
  lemma SeqOnStringCounterexample(addr: string)
    ensures ValidateAsWritten(Seq(Atom(Int)), VStr("ab"), addr).result.Success?
    ensures ValidateAsWritten(Seq(Atom(Int)), VStr("ab"), addr).result.value != VStr("ab")
    ensures Validate(Seq(Atom(Int)), VStr("ab")) == Failure(ValidationError(Atom(Int), WrongBaseType("'int'", "'str'")))
  {
    SeqOnStringAsWritten(Seq(Atom(Int)), "ab", addr);
    assert |GeneratorRepr(addr)| != |"ab"|;
    SeqOfIntRefusesAb();
  }

  /** Model({'colors': Seq(str)}).validate({'colors': 'red'}): as written
      the in-place write replaces 'red' with the generator's repr, in the
      dict returned and in the dict passed; corrected, the dict passes and
      is left as it was. */
  lemma ModelFieldCounterexample(addr: string)
    ensures var m, v := Model([("colors", Seq(Atom(Str)))]), VDict([(VStr("colors"), VStr("red"))]);
      var w := VDict([(VStr("colors"), VStr(GeneratorRepr(addr)))]);
      ValidateAsWritten(m, v, addr) == Outcome(Success(w), w) && w != v &&
      Validate(m, v) == Success(v) && Mutated(m, v) == v
  {
    var m, v := Model([("colors", Seq(Atom(Str)))]), VDict([(VStr("colors"), VStr("red"))]);
    var w := VDict([(VStr("colors"), VStr(GeneratorRepr(addr)))]);
    SeqOnStringAsWritten(Seq(Atom(Str)), "red", addr);
    assert |GeneratorRepr(addr)| != |"red"|;
    FindAt(v.entries, VStr("colors"), 0);
    RunFieldsAsWrittenUnfold(m, 0, v.entries, addr, 0);
    assert v.entries[0 := (VStr("colors"), VStr(GeneratorRepr(addr)))] == w.entries;
    assert RunFieldsAsWritten(m, 0, v.entries, addr) == Run(None, w.entries);
    ModelAsWrittenUnfold(m, v.entries, addr);
    SeqOfStrAcceptsStrings("red");
    ModelAcceptsAll(m, v.entries);
    ModelValidateLeavesValue(m, v);
  }

  /** Seq(Seq(int)).validate(['ab']): as written the inner node meets a
      string, so the list passes and holds a repr; corrected, the item 'a'
      is refused. The list passed is left as it was either way. */
  lemma NestedSeqCounterexample(addr: string)
    ensures var s, v := Seq(Seq(Atom(Int))), VList([VStr("ab")]);
      ValidateAsWritten(s, v, addr) == Outcome(Success(VList([VStr(GeneratorRepr(addr))])), v) &&
      Validate(s, v) == Failure(ValidationError(Atom(Int), WrongBaseType("'int'", "'str'")))
  {
    var s, v := Seq(Seq(Atom(Int))), VList([VStr("ab")]);
    SeqOnStringAsWritten(Seq(Atom(Int)), "ab", addr);
    assert [VStr("ab")][1..] == [];
    assert ItemsAsWritten(s, [VStr("ab")], addr) == Pass(None, [VStr(GeneratorRepr(addr))], [VStr("ab")]);
    ListAsWrittenUnfold(s, [VStr("ab")], addr);
    SeqOfIntRefusesAb();
    SeqFirstFailure(s, v, 0);
  }

  /** A failing field deep in the tree: as written the outer dict's field
      is left holding the inner dict with the writes made before the
      failure; corrected, the same error is raised and nothing changes. */
  lemma PartialWritesCounterexample(addr: string)
    ensures var m := Model([("a", Model([("x", Seq(Atom(Str))), ("y", Atom(Int))]))]);
      var d := VDict([(VStr("x"), VStr("red")), (VStr("y"), VStr("no"))]);
      var d' := VDict([(VStr("x"), VStr(GeneratorRepr(addr))), (VStr("y"), VStr("no"))]);
      var e := ValidationError(Atom(Int), WrongBaseType("'int'", "'str'"));
      ValidateAsWritten(m, VDict([(VStr("a"), d)]), addr) == Outcome(Failure(e), VDict([(VStr("a"), d')])) &&
      Validate(m, VDict([(VStr("a"), d)])) == Failure(e) && Mutated(m, VDict([(VStr("a"), d)])) == VDict([(VStr("a"), d)])
  {
    var inner := Model([("x", Seq(Atom(Str))), ("y", Atom(Int))]);
    var m := Model([("a", inner)]);
    var d := VDict([(VStr("x"), VStr("red")), (VStr("y"), VStr("no"))]);
    var d' := VDict([(VStr("x"), VStr(GeneratorRepr(addr))), (VStr("y"), VStr("no"))]);
    var e := ValidationError(Atom(Int), WrongBaseType("'int'", "'str'"));
    var entries := [(VStr("a"), d)];
    PartialWritesInner(addr);
    FindAt(entries, VStr("a"), 0);
    RunFieldsAsWrittenUnfold(m, 0, entries, addr, 0);
    assert entries[0 := (VStr("a"), d')] == [(VStr("a"), d')];
    ModelAsWrittenUnfold(m, entries, addr);
    ModelFirstFailure(m, VDict(entries), 0);
    ModelValidateLeavesValue(m, VDict(entries));
  }

  /** The inner dict of the example above: 'x' is overwritten with the
      repr before 'y' fails. */
  lemma PartialWritesInner(addr: string)
    ensures var inner := Model([("x", Seq(Atom(Str))), ("y", Atom(Int))]);
      var d := VDict([(VStr("x"), VStr("red")), (VStr("y"), VStr("no"))]);
      var d' := VDict([(VStr("x"), VStr(GeneratorRepr(addr))), (VStr("y"), VStr("no"))]);
      var e := ValidationError(Atom(Int), WrongBaseType("'int'", "'str'"));
      ValidateAsWritten(inner, d, addr) == Outcome(Failure(e), d') && Validate(inner, d) == Failure(e)
  {
    var inner := Model([("x", Seq(Atom(Str))), ("y", Atom(Int))]);
    var d := VDict([(VStr("x"), VStr("red")), (VStr("y"), VStr("no"))]);
    var d' := VDict([(VStr("x"), VStr(GeneratorRepr(addr))), (VStr("y"), VStr("no"))]);
    var e := ValidationError(Atom(Int), WrongBaseType("'int'", "'str'"));
    SeqOnStringAsWritten(Seq(Atom(Str)), "red", addr);
    FindAt(d.entries, VStr("x"), 0);
    RunFieldsAsWrittenUnfold(inner, 0, d.entries, addr, 0);
    assert d.entries[0 := (VStr("x"), VStr(GeneratorRepr(addr)))] == d'.entries;
    PartialWritesStop(addr);
    ModelAsWrittenUnfold(inner, d.entries, addr);
    PartialWritesCorrected();
  }

  /** The turn at 'y', after 'x' was overwritten: 'no' is not an int. */
  lemma PartialWritesStop(addr: string)
    ensures var inner := Model([("x", Seq(Atom(Str))), ("y", Atom(Int))]);
      var entries := [(VStr("x"), VStr(GeneratorRepr(addr))), (VStr("y"), VStr("no"))];
      RunFieldsAsWritten(inner, 1, entries, addr) ==
        Run(Some(ValidationError(Atom(Int), WrongBaseType("'int'", "'str'"))), entries)
  {
    var inner := Model([("x", Seq(Atom(Str))), ("y", Atom(Int))]);
    var entries := [(VStr("x"), VStr(GeneratorRepr(addr))), (VStr("y"), VStr("no"))];
    FindAt(entries, VStr("y"), 1);
    NoIsNotAnInt();
    BaseCheckAgreesOnPlainClasses(Atom(Int), VStr("no"));
    RunFieldsAsWrittenUnfold(inner, 1, entries, addr, 1);
    assert entries[1 := (VStr("y"), VStr("no"))] == entries;
  }

  /** Corrected, 'x' passes and 'y' raises. */
  lemma PartialWritesCorrected()
    ensures Validate(Model([("x", Seq(Atom(Str))), ("y", Atom(Int))]),
                     VDict([(VStr("x"), VStr("red")), (VStr("y"), VStr("no"))])) ==
      Failure(ValidationError(Atom(Int), WrongBaseType("'int'", "'str'")))
  {
    var inner := Model([("x", Seq(Atom(Str))), ("y", Atom(Int))]);
    var entries := [(VStr("x"), VStr("red")), (VStr("y"), VStr("no"))];
    FindAt(entries, VStr("x"), 0);
    FindAt(entries, VStr("y"), 1);
    SeqOfStrAcceptsStrings("red");
    assert FieldPasses(inner, entries, 0);
    NoIsNotAnInt();
    assert !FieldPasses(inner, entries, 1);
    ModelFirstFailure(inner, VDict(entries), 1);
  }

  lemma NoIsNotAnInt()
    ensures Validate(Atom(Int), VStr("no")) == Failure(ValidationError(Atom(Int), WrongBaseType("'int'", "'str'")))
  {
    AtomValidate(Int, VStr("no"));
    assert Quote(ClassName(Int)) == "'int'" && Quote(Utils.TypeName(VStr("no"))) == "'str'";
  }

  // ---------------------------------------------------------------------
  // Where the as-written validation agrees with the corrected one

  /** No string anywhere among the value's items and field values. */
  predicate StringFree(v: Value) {
    match v
    case VStr(_) => false
    case VList(items) => forall i :: 0 <= i < |items| ==> StringFree(items[i])
    case VTuple(items) => forall i :: 0 <= i < |items| ==> StringFree(items[i])
    case VDict(entries) => forall i :: 0 <= i < |entries| ==> StringFree(entries[i].1)
    case _ => true
  }

  /** On a value holding no string, the as-written validation passes
      exactly what the corrected one passes, gives back the input, and
      leaves it as it was. */
  lemma {:induction false} AsWrittenAgrees(s: Spec, v: Value, addr: string)
    requires StringFree(v)
    ensures var o := ValidateAsWritten(s, v, addr);
      o.after == v && (o.result.Success? <==> Validate(s, v).Success?) &&
      (o.result.Success? ==> o.result.value == v)
    decreases s, 1
  {
    if BaseCheck(s, v).Success? {
      match s
      case Atom(_) =>
      case Map(_, _) =>
      case Model(fields) =>
        if |v.entries| == |fields| {
          RunFieldsAgree(s, 0, v.entries, addr);
        }
      case Seq(_) =>
        ItemsAgree(s, v.items, addr);
        ValidateItemsReturnInput(s, v.items);
    }
  }

  lemma {:induction false} RunFieldsAgree(m: Spec, i: nat, entries: seq<(Value, Value)>, addr: string)
    requires m.Model? && i <= |m.fields|
    requires forall j :: 0 <= j < |entries| ==> StringFree(entries[j].1)
    ensures RunFieldsAsWritten(m, i, entries, addr).entries == entries
    ensures RunFieldsAsWritten(m, i, entries, addr).failure.None? <==> RunFields(m, i, entries).failure.None?
    decreases m, 0, |m.fields| - i
  {
    if i < |m.fields| {
      var (name, child) := m.fields[i];
      var k := Find(entries, VStr(name));
      if k < |entries| {
        AsWrittenAgrees(child, entries[k].1, addr);
        ValidateReturnsInput(child, entries[k].1);
        assert entries[k := (entries[k].0, entries[k].1)] == entries;
        RunFieldsAgree(m, i + 1, entries, addr);
      }
    }
  }

  lemma {:induction false} ItemsAgree(s: Spec, items: seq<Value>, addr: string)
    requires s.Seq? && forall j :: 0 <= j < |items| ==> StringFree(items[j])
    ensures ItemsAsWritten(s, items, addr).after == items
    ensures ItemsAsWritten(s, items, addr).failure.None? <==> ValidateItems(s, items).Success?
    ensures ItemsAsWritten(s, items, addr).failure.None? ==> ItemsAsWritten(s, items, addr).results == items
    decreases s, 0, |items|
  {
    if items != [] {
      AsWrittenAgrees(s.elem, items[0], addr);
      ItemsAgree(s, items[1..], addr);
    }
  }

  lemma SeqOfIntRefusesAb()
    ensures Validate(Seq(Atom(Int)), VStr("ab")) == Failure(ValidationError(Atom(Int), WrongBaseType("'int'", "'str'")))
  {
    assert Items(VStr("ab"))[0] == VStr("a");
    AtomValidate(Int, VStr("a"));
    assert Quote(ClassName(Int)) == "'int'" && Quote(Utils.TypeName(VStr("a"))) == "'str'";
    SeqFirstFailure(Seq(Atom(Int)), VStr("ab"), 0);
  }

  /** Corrected: a string passes a Seq node exactly when each of its
      one-character strings passes the element node, and it is given back. */
  lemma SeqOnStringValidatesCharacters(s: Spec, text: string)
    requires s.Seq?
    ensures Validate(s, VStr(text)).Success? <==>
      forall i :: 0 <= i < |text| ==> Validate(s.elem, VStr([text[i]])).Success?
    ensures Validate(s, VStr(text)).Success? ==> Validate(s, VStr(text)).value == VStr(text)
  {
    SeqValidateIff(s, VStr(text));
    assert forall i :: 0 <= i < |text| ==> Items(VStr(text))[i] == VStr([text[i]]);
  }

  // ---------------------------------------------------------------------
  // Finding: the expected class in Spec.validate's message

  /** As written, a node whose base type is an ABC (every Model, Map and
      Seq) names the expected class 'ABCMeta'; corrected, it names the ABC. */
  lemma BaseCheckNamesMetaclass(s: Spec, v: Value)
    requires Metaclass(BaseType(s)) == ABCMeta && !IsInstance(v, BaseType(s))
    ensures BaseCheckAsWritten(s, v) == Failure(ValidationError(s, WrongBaseType("'ABCMeta'", Quote(Utils.TypeName(v)))))
    ensures BaseCheck(s, v).error.vcause.expectedType == Quote(ClassName(BaseType(s)))
    ensures BaseCheck(s, v).error.vcause.expectedType != "'ABCMeta'"
  {
    assert Quote(Utils.TypeName(VType(BaseType(s)))) == "'ABCMeta'";
    var n := ClassName(BaseType(s));
    assert n != "ABCMeta";
    assert Quote(n)[1..|n| + 1] == n;
    assert "'ABCMeta'"[1..8] == "ABCMeta";
  }

  /** Seq(int).validate(5) as written reports "expected 'ABCMeta'". */
  lemma BaseCheckCounterexample()
    ensures BaseCheckAsWritten(Seq(Atom(Int)), VInt(5)) ==
      Failure(ValidationError(Seq(Atom(Int)), WrongBaseType("'ABCMeta'", "'int'")))
    ensures Validate(Seq(Atom(Int)), VInt(5)) ==
      Failure(ValidationError(Seq(Atom(Int)), WrongBaseType("'Sequence'", "'int'")))
  {
    assert Quote(Utils.TypeName(VType(Sequence))) == "'ABCMeta'";
    assert Quote(ClassName(Sequence)) == "'Sequence'";
    assert Quote(Utils.TypeName(VInt(5))) == "'int'";
  }

  /** Where the base type is a plain class the two agree. */
  lemma BaseCheckAgreesOnPlainClasses(s: Spec, v: Value)
    requires Metaclass(BaseType(s)) == Type
    ensures BaseCheckAsWritten(s, v) == BaseCheck(s, v)
  {
  }
}
