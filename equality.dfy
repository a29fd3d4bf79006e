/** datalayer/specs.py, `Spec.__eq__`: two nodes are equal when their
    wrapped values are, `self.spec == other.spec`, under Python's rules for
    the wrapped values: classes compare by identity, field mappings as
    dicts (same size, every key of the left one present on the right with
    an equal node, checked in the left one's order), (key, value) pairs as
    tuples. A class, a dict or a tuple compared with a Spec hands the
    comparison to the Spec, which then reads the missing `.spec` attribute
    of the other side. */
module Equality {
  import opened Wrappers
  import opened Objects
  import opened Specs

  /** `a == b` for two nodes. */
  function SpecEq(a: Spec, b: Spec): Result<bool, Error>
    decreases a, 1
  {
    match (a, b)
    case (Seq(e), Seq(f)) => SpecEq(e, f)
    case (Seq(_), _) => Failure(AttributeError(Inner(b), "spec"))
    case (_, Seq(_)) => Failure(AttributeError(Inner(a), "spec"))
    case (Atom(t), Atom(u)) => Success(t == u)
    case (Model(f), Model(g)) =>
      if |FieldsAsDict(f)| != |FieldsAsDict(g)| then Success(false) else FieldsEq(a, 0, g)
    case (Map(k, v), Map(k', v')) =>
      var keys :- SpecEq(k, k');
      if !keys then Success(false) else SpecEq(v, v')
    case _ => Success(false)
  }

  /** The dict comparison from the i-th field of `a` on. */
  function FieldsEq(a: Spec, i: nat, g: seq<(string, Spec)>): Result<bool, Error>
    requires a.Model? && i <= |a.fields|
    decreases a, 0, |a.fields| - i
  {
    if i == |a.fields| then Success(true)
    else
      var j := Find(g, a.fields[i].0);
      if j == |g| then Success(false)
      else
        var same :- SpecEq(a.fields[i].1, g[j].1);
        if !same then Success(false) else FieldsEq(a, i + 1, g)
  }

  /** Every node is equal to itself. */
  lemma {:induction false} SpecEqReflexive(s: Spec)
    requires WellFormed(s)
    ensures SpecEq(s, s) == Success(true)
    decreases s, 1
  {
    match s
    case Atom(_) =>
    case Seq(e) => SpecEqReflexive(e);
    case Map(k, v) =>
      SpecEqReflexive(k);
      SpecEqReflexive(v);
    case Model(f) => FieldsEqReorder(s, 0, f);
  }

  /** With distinct names, the dict comparison against any reordering of
      the same fields succeeds. */
  lemma {:induction false} FieldsEqReorder(a: Spec, i: nat, g: seq<(string, Spec)>)
    requires a.Model? && i <= |a.fields| && WellFormed(a)
    requires DistinctNames(g)
    requires forall l :: i <= l < |a.fields| ==> a.fields[l] in g
    ensures FieldsEq(a, i, g) == Success(true)
    decreases a, 0, |a.fields| - i
  {
    if i < |a.fields| {
      var (name, child) := a.fields[i];
      var l :| 0 <= l < |g| && g[l] == (name, child);
      assert Find(g, name) == l by {
        FindNameAt(g, name, l);
      }
      assert WellFormed(child);
      SpecEqReflexive(child);
      FieldsEqReorder(a, i + 1, g);
    }
  }

  lemma FindNameAt(g: seq<(string, Spec)>, name: string, l: nat)
    requires DistinctNames(g) && l < |g| && g[l].0 == name
    ensures Find(g, name) == l
  {
  }

  /** Field order does not matter: two Models holding the same fields in
      any order are equal. */
  lemma ModelEqIgnoresOrder(f: seq<(string, Spec)>, g: seq<(string, Spec)>)
    requires WellFormed(Model(f)) && DistinctNames(g) && |f| == |g|
    requires forall p :: p in f ==> p in g
    ensures SpecEq(Model(f), Model(g)) == Success(true)
  {
    forall l | 0 <= l < |f| ensures f[l] in g {
      assert f[l] in f;
    }
    FieldsEqReorder(Model(f), 0, g);
  }

  /** Equal nodes are of the same class, and two Atoms are equal exactly
      when they wrap the same class. */
  lemma {:induction false} SpecEqSameClass(a: Spec, b: Spec)
    ensures SpecEq(a, b) == Success(true) ==> ClassOf(a) == ClassOf(b) && BaseType(a) == BaseType(b)
    ensures a.Atom? && b.Atom? ==> SpecEq(a, b) == Success(a.t == b.t)
  {
  }

  /** Comparing across kinds: a Seq against anything else raises an
      AttributeError on the side that is not a Seq; the other mixed
      pairs are simply unequal. */
  lemma SpecEqMixedKinds(a: Spec, b: Spec)
    requires ClassOf(a) != ClassOf(b)
    ensures a.Seq? ==> SpecEq(a, b) == Failure(AttributeError(Inner(b), "spec"))
    ensures b.Seq? ==> SpecEq(a, b) == Failure(AttributeError(Inner(a), "spec"))
    ensures !a.Seq? && !b.Seq? ==> SpecEq(a, b) == Success(false)
  {
  }

  /** Models of different sizes are unequal, and equal Models have every
      field of the left one present on the right with an equal node. */
  lemma {:induction false} ModelEqRequiresLeftFields(f: seq<(string, Spec)>, g: seq<(string, Spec)>)
    ensures |f| != |g| ==> SpecEq(Model(f), Model(g)) == Success(false)
    ensures SpecEq(Model(f), Model(g)) == Success(true) ==>
      forall i :: 0 <= i < |f| ==> Find(g, f[i].0) < |g| && SpecEq(f[i].1, g[Find(g, f[i].0)].1) == Success(true)
  {
    if |f| == |g| && SpecEq(Model(f), Model(g)) == Success(true) {
      FieldsEqFindsAll(Model(f), 0, g);
    }
  }

  lemma {:induction false} FieldsEqFindsAll(a: Spec, i: nat, g: seq<(string, Spec)>)
    requires a.Model? && i <= |a.fields|
    requires FieldsEq(a, i, g) == Success(true)
    ensures forall l :: i <= l < |a.fields| ==>
      Find(g, a.fields[l].0) < |g| && SpecEq(a.fields[l].1, g[Find(g, a.fields[l].0)].1) == Success(true)
    decreases |a.fields| - i
  {
    if i < |a.fields| {
      FieldsEqFindsAll(a, i + 1, g);
    }
  }

  /** Model equality exactly: the same number of fields, and every field
      of the left one present on the right with an equal node. */
  lemma ModelEqIff(f: seq<(string, Spec)>, g: seq<(string, Spec)>)
    ensures SpecEq(Model(f), Model(g)) == Success(true) <==>
      |f| == |g| &&
      forall i :: 0 <= i < |f| ==> Find(g, f[i].0) < |g| && SpecEq(f[i].1, g[Find(g, f[i].0)].1) == Success(true)
  {
    ModelEqRequiresLeftFields(f, g);
    if |f| == |g| &&
      forall i :: 0 <= i < |f| ==> Find(g, f[i].0) < |g| && SpecEq(f[i].1, g[Find(g, f[i].0)].1) == Success(true)
    {
      FieldsEqFromAll(Model(f), 0, g);
    }
  }

  lemma {:induction false} FieldsEqFromAll(a: Spec, i: nat, g: seq<(string, Spec)>)
    requires a.Model? && i <= |a.fields|
    requires forall l :: i <= l < |a.fields| ==>
      Find(g, a.fields[l].0) < |g| && SpecEq(a.fields[l].1, g[Find(g, a.fields[l].0)].1) == Success(true)
    ensures FieldsEq(a, i, g) == Success(true)
    decreases |a.fields| - i
  {
    if i < |a.fields| {
      FieldsEqFromAll(a, i + 1, g);
    }
  }

  /** A Seq is compared by its element. */
  lemma SeqEqByElement(e: Spec, e': Spec)
    ensures SpecEq(Seq(e), Seq(e')) == SpecEq(e, e')
  {
  }

  /** Two Maps are equal exactly when their key nodes are and their value
      nodes are. */
  lemma MapEqByParts(k: Spec, v: Spec, k': Spec, v': Spec)
    ensures SpecEq(Map(k, v), Map(k', v')) == Success(true) <==>
      SpecEq(k, k') == Success(true) && SpecEq(v, v') == Success(true)
  {
  }

  /** Equality between well-formed nodes is symmetric. */
  lemma {:induction false} SpecEqSymmetric(a: Spec, b: Spec)
    requires WellFormed(a) && WellFormed(b)
    ensures SpecEq(a, b) == Success(true) ==> SpecEq(b, a) == Success(true)
    decreases a
  {
    if SpecEq(a, b) == Success(true) {
      SpecEqSameClass(a, b);
      match (a, b)
      case (Atom(_), Atom(_)) =>
      case (Seq(e), Seq(e')) => SpecEqSymmetric(e, e');
      case (Map(k, v), Map(k', v')) =>
        SpecEqSymmetric(k, k');
        SpecEqSymmetric(v, v');
      case (Model(f), Model(g)) =>
        ModelEqIff(f, g);
        NamesCover(f, g);
        forall j | 0 <= j < |g|
          ensures Find(f, g[j].0) < |f| && SpecEq(g[j].1, f[Find(f, g[j].0)].1) == Success(true)
        {
          var k := Find(f, g[j].0);
          FindNameAt(g, f[k].0, j);
          SpecEqSymmetric(f[k].1, g[j].1);
        }
        ModelEqIff(g, f);
    }
  }

  /** The names of a field list. */
  function Names(f: seq<(string, Spec)>): set<string> {
    set i | 0 <= i < |f| :: f[i].0
  }

  /** Every left name found on the right, with as many distinct names on
      both sides: then every right name is found on the left. */
  lemma NamesCover(f: seq<(string, Spec)>, g: seq<(string, Spec)>)
    requires DistinctNames(f) && DistinctNames(g) && |f| == |g|
    requires forall i :: 0 <= i < |f| ==> Find(g, f[i].0) < |g|
    ensures forall j :: 0 <= j < |g| ==> Find(f, g[j].0) < |f|
  {
    assert Names(f) <= Names(g) by {
      forall x | x in Names(f) ensures x in Names(g) {
        var i :| 0 <= i < |f| && f[i].0 == x;
        assert g[Find(g, f[i].0)].0 == x;
      }
    }
    NamesCount(f);
    NamesCount(g);
    SubsetOfSameSize(Names(f), Names(g));
    forall j | 0 <= j < |g| ensures Find(f, g[j].0) < |f| {
      assert g[j].0 in Names(g);
      var i :| 0 <= i < |f| && f[i].0 == g[j].0;
      FindNameAt(f, g[j].0, i);
    }
  }

  lemma {:induction false} NamesCount(f: seq<(string, Spec)>)
    requires DistinctNames(f)
    ensures |Names(f)| == |f|
    decreases |f|
  {
    if f != [] {
      var n := |f| - 1;
      NamesCount(f[..n]);
      assert Names(f) == Names(f[..n]) + {f[n].0} by {
        forall x | x in Names(f) ensures x in Names(f[..n]) + {f[n].0} {
          var i :| 0 <= i < |f| && f[i].0 == x;
          if i < n {
            assert f[..n][i] == f[i];
          }
        }
      }
      assert f[n].0 !in Names(f[..n]);
    }
  }

  lemma SubsetOfSameSize<T>(a: set<T>, b: set<T>)
    requires a <= b && |a| == |b|
    ensures a == b
  {
    assert a + (b - a) == b && a * (b - a) == {};
    assert |b - a| == 0;
    forall y | y in b ensures y in a {
      assert y !in b - a;
    }
  }
}
