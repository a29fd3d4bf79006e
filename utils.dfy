/** datalayer/utils.py: the `typename` helper that error messages use. */
module Utils {
  import opened Objects

  /** typename(x): a value whose type is exactly `type` is a plain class and
      is named by itself; anything else is named by its class. The test is
      identity with `type`, so a class built by another metaclass (an ABC,
      a Spec class) is named by that metaclass. */
  function TypeName(x: Value): string {
    var named := if TypeOf(x) != Type then TypeOf(x) else x.t;
    ClassName(named)
  }

  /** A plain class is named by its own name: typename(str) == 'str'. */
  lemma PlainClassNamedBySelf(t: PyType)
    requires Metaclass(t) == Type
    ensures TypeName(VType(t)) == ClassName(t)
  {
  }

  /** A class built by ABCMeta (Mapping, Sequence, Container and every Spec
      class) is named after its metaclass. */
  lemma AbcClassNamedByMetaclass(t: PyType)
    requires Metaclass(t) == ABCMeta
    ensures TypeName(VType(t)) == "ABCMeta"
  {
  }

  /** Any value that is not a class is named by its class:
      typename('foo') == 'str'. */
  lemma InstanceNamedByClass(x: Value)
    requires !x.VType?
    ensures TypeName(x) == ClassName(TypeOf(x))
  {
  }

  /** For an instance of a plain class, typename(x) == typename(type(x)). */
  lemma InstanceAndPlainClassAgree(x: Value)
    requires !x.VType? && Metaclass(TypeOf(x)) == Type
    ensures TypeName(x) == TypeName(VType(TypeOf(x)))
  {
  }

  /** The identity test makes the two disagree for Spec instances:
      typename(Atom(int)) is 'Atom' but typename(Atom) is 'ABCMeta'. */
  lemma SpecInstanceAndClassDisagree(s: Spec)
    ensures TypeName(VSpec(s)) == ClassName(SpecClass(ClassOf(s)))
    ensures TypeName(VType(TypeOf(VSpec(s)))) == "ABCMeta"
  {
  }

  lemma TypeNameExamples()
    ensures TypeName(VType(Str)) == "str"
    ensures TypeName(VStr("foo")) == "str"
    ensures TypeName(VType(UserClass("BaseCls"))) == "BaseCls"
    ensures TypeName(VInstance("BaseCls", [])) == "BaseCls"
  {
  }
}
