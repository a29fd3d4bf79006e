/** datalayer/specs.py, navigation: `Model.inner`, which looks a field up
    in the field mapping, and `Spec.innermost`, which unwraps nodes until
    the wrapped value is not a Spec. */
module Navigation {
  import opened Wrappers
  import opened Objects
  import opened Specs

  /** Model.inner(item, default): `None` stands for the omitted argument.
      The field mapping is a dict, so the item is hashed first. */
  function ModelInner(m: Spec, item: Option<Value>, default: Option<Value>): Result<Value, Error>
    requires m.Model?
  {
    if item.None? then Success(Inner(m))
    else if !HashableValue(item.value) then Failure(UnhashableTypeError(UnhashableName(item.value)))
    else
      var d := FieldsAsDict(m.fields);
      var k := Find(d, item.value);
      if k < |d| then Success(d[k].1)
      else if default.None? then Failure(SchemaError(Node(m), KeyNotFound(item.value)))
      else Success(default.value)
  }

  /** Without an item, the whole field mapping: each field name, in
      declaration order, bound to its node. */
  lemma ModelInnerWhole(m: Spec, default: Option<Value>)
    requires m.Model?
    ensures ModelInner(m, None, default).Success?
    ensures var r := ModelInner(m, None, default).value;
      r.VDict? && |r.entries| == |m.fields| &&
      forall i :: 0 <= i < |m.fields| ==> r.entries[i] == (VStr(m.fields[i].0), VSpec(m.fields[i].1))
  {
  }

  /** A declared field name gives that field's node, whatever the default. */
  lemma ModelInnerFound(m: Spec, k: nat, default: Option<Value>)
    requires m.Model? && DistinctNames(m.fields) && k < |m.fields|
    ensures ModelInner(m, Some(VStr(m.fields[k].0)), default) == Success(VSpec(m.fields[k].1))
  {
    var d := FieldsAsDict(m.fields);
    FindAt(d, VStr(m.fields[k].0), k);
  }

  /** A hashable item naming no field raises a schema error naming the
      node and the item, unless a default is given, which is returned. */
  lemma ModelInnerMissing(m: Spec, item: Value, default: Option<Value>)
    requires m.Model? && HashableValue(item)
    requires forall i :: 0 <= i < |m.fields| ==> item != VStr(m.fields[i].0)
    ensures default.None? ==> ModelInner(m, Some(item), default) == Failure(SchemaError(Node(m), KeyNotFound(item)))
    ensures default.Some? ==> ModelInner(m, Some(item), default) == Success(default.value)
  {
    FindAbsent(FieldsAsDict(m.fields), item);
  }

  /** An unhashable item is refused by the dict before any lookup, even
      when a default is given. */
  lemma ModelInnerUnhashable(m: Spec, item: Value, default: Option<Value>)
    requires m.Model? && !HashableValue(item)
    ensures ModelInner(m, Some(item), default) == Failure(UnhashableTypeError(UnhashableName(item)))
  {
  }

  /** What `innermost()` returns: the inner value, unwrapped while it is a
      Spec. Only a Seq wraps a Spec. */
  function InnermostOf(s: Spec): Value {
    match s
    case Seq(e) => InnermostOf(e)
    case _ => Inner(s)
  }

  /** Spec.innermost */
  method Innermost(s: Spec) returns (r: Value)
    ensures r == InnermostOf(s)
    ensures !IsInstance(r, SpecClass(SpecBase))
  {
    ghost var node := s;
    var inner := Inner(s);
    while IsInstance(inner, SpecClass(SpecBase))
      invariant inner == Inner(node)
      invariant InnermostOf(node) == InnermostOf(s)
      decreases node
    {
      node := inner.node;
      inner := Inner(inner.node);
    }
    return inner;
  }

  /** innermost() never returns a Spec. */
  lemma {:induction false} InnermostNeverSpec(s: Spec)
    ensures !InnermostOf(s).VSpec?
  {
    match s
    case Seq(e) => InnermostNeverSpec(e);
    case _ =>
  }

  /** Seq(...Seq(Atom(T))...) gives T; a Model gives its field mapping; a
      Map its (key, value) pair. */
  lemma {:induction false} InnermostStripsSeqs(s: Spec)
    ensures InnermostOf(s) == Inner(Element(s))
    ensures Element(s).Atom? ==> InnermostOf(s) == VType(Element(s).t)
    ensures Element(s).Model? ==> InnermostOf(s) == VDict(FieldsAsDict(Element(s).fields))
    ensures Element(s).Map? ==> InnermostOf(s) == VTuple([VSpec(Element(s).key), VSpec(Element(s).val)])
  {
    match s
    case Seq(e) => InnermostStripsSeqs(e);
    case _ =>
  }

  /** The first node below the chain of Seqs at the top of `s`. */
  function Element(s: Spec): (r: Spec)
    ensures !r.Seq?
  {
    match s
    case Seq(e) => Element(e)
    case _ => s
  }
}
