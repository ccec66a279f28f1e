/** JSON values as the system tests and the resource model build them, and
    the equality Java gives them once they are decoded: arrays (`List`)
    compare element by element in order, objects (`Map`) compare as sets of
    named members whatever their order. */
module Json {
  import opened Wrappers
  import opened Objects

  datatype Value =
    | Null
    | Bool(b: bool)
    | Int(i: int)
    | Str(s: string)
    | Array(items: seq<Value>)
    | Object(members: seq<Member<Value>>)

  /** `equals` of the decoded values: every member of either object has a
      member of the same name and an equivalent value in the other, which for
      objects without repeated names (as every decoded map is) is
      `AbstractMap.equals`. */
  predicate Equivalent(a: Value, b: Value)
    decreases a, 2
  {
    match a
    case Array(xs) =>
      && b.Array? && |xs| == |b.items|
      && forall i :: 0 <= i < |xs| ==> Equivalent(xs[i], b.items[i])
    case Object(ms) =>
      && b.Object?
      && (forall i :: 0 <= i < |ms| ==> MatchedIn(a, i, b.members))
      && (forall j :: 0 <= j < |b.members| ==> Matches(a, b.members[j]))
    case _ => a == b
  }

  /** The `i`-th member of object `a` has a partner in `ns`: a member of the
      same name with an equivalent value. */
  predicate MatchedIn(a: Value, i: nat, ns: seq<Member<Value>>)
    requires a.Object? && i < |a.members|
    decreases a, 1
  {
    exists j :: 0 <= j < |ns| && ns[j].name == a.members[i].name && Equivalent(a.members[i].value, ns[j].value)
  }

  /** Member `n` has a partner in object `a`. */
  predicate Matches(a: Value, n: Member<Value>)
    requires a.Object?
    decreases a, 1
  {
    exists i :: 0 <= i < |a.members| && a.members[i].name == n.name && Equivalent(a.members[i].value, n.value)
  }

  /** Two absent values, or two equivalent present ones. */
  predicate OptionEquivalent(a: Option<Value>, b: Option<Value>) {
    if a.Some? then b.Some? && Equivalent(a.value, b.value) else b.None?
  }

  /** `List.equals` of decoded values: same length, equivalent in order. */
  predicate SeqEquivalent(xs: seq<Value>, ys: seq<Value>) {
    |xs| == |ys| && forall i :: 0 <= i < |xs| ==> Equivalent(xs[i], ys[i])
  }

  /** `Map.equals` of two extension bags: the same keys, equivalent values. */
  predicate BagEquivalent(m: map<string, Value>, n: map<string, Value>) {
    m.Keys == n.Keys && forall k :: k in m ==> Equivalent(m[k], n[k])
  }

  /** Every value equals itself. */
  lemma {:induction false} EquivalentReflexive(a: Value)
    ensures Equivalent(a, a)
    decreases a
  {
    match a
    case Array(xs) =>
      forall i | 0 <= i < |xs|
        ensures Equivalent(xs[i], xs[i])
      {
        EquivalentReflexive(xs[i]);
      }
    case Object(ms) =>
      forall i | 0 <= i < |ms|
        ensures MatchedIn(a, i, ms) && Matches(a, ms[i])
      {
        assert ms[i] in ms;
        EquivalentReflexive(ms[i].value);
      }
    case _ =>
  }

  /** Equality of decoded values does not depend on the side. */
  lemma {:induction false} EquivalentSymmetric(a: Value, b: Value)
    requires Equivalent(a, b)
    ensures Equivalent(b, a)
    decreases a
  {
    match a
    case Array(xs) =>
      forall i | 0 <= i < |xs|
        ensures Equivalent(b.items[i], xs[i])
      {
        EquivalentSymmetric(xs[i], b.items[i]);
      }
    case Object(ms) =>
      var ns := b.members;
      forall j | 0 <= j < |ns|
        ensures MatchedIn(b, j, ms)
      {
        assert Matches(a, ns[j]);
        var i :| 0 <= i < |ms| && ms[i].name == ns[j].name && Equivalent(ms[i].value, ns[j].value);
        assert ms[i] in ms;
        EquivalentSymmetric(ms[i].value, ns[j].value);
      }
      forall i | 0 <= i < |ms|
        ensures Matches(b, ms[i])
      {
        assert MatchedIn(a, i, ns);
        var j :| 0 <= j < |ns| && ns[j].name == ms[i].name && Equivalent(ms[i].value, ns[j].value);
        assert ms[i] in ms;
        EquivalentSymmetric(ms[i].value, ns[j].value);
      }
    case _ =>
  }

  /** Two members written in either order make the same object. */
  lemma MemberOrderIgnored(m1: Member<Value>, m2: Member<Value>)
    ensures Equivalent(Object([m1, m2]), Object([m2, m1]))
  {
    EquivalentReflexive(m1.value);
    EquivalentReflexive(m2.value);
    var a, b := Object([m1, m2]), Object([m2, m1]);
    assert MatchedIn(a, 0, b.members) && MatchedIn(a, 1, b.members) by {
      assert b.members[1] == m1 && b.members[0] == m2;
    }
    assert Matches(a, b.members[0]) && Matches(a, b.members[1]) by {
      assert a.members[1] == m2 && a.members[0] == m1;
    }
  }

  /** A scalar equals only itself. */
  lemma ScalarsCompareExactly(a: Value, b: Value)
    requires !a.Array? && !a.Object?
    ensures Equivalent(a, b) <==> a == b
  {
  }

  /** Some member of `ns` is called `name`. */
  predicate HasMemberNamed(ns: seq<Member<Value>>, name: string) {
    exists j :: 0 <= j < |ns| && ns[j].name == name
  }

  /** Objects that are equal have the same member names. */
  lemma EquivalentObjectsShareNames(ms: seq<Member<Value>>, ns: seq<Member<Value>>)
    requires Equivalent(Object(ms), Object(ns))
    ensures forall i :: 0 <= i < |ms| ==> HasMemberNamed(ns, ms[i].name)
    ensures forall j :: 0 <= j < |ns| ==> HasMemberNamed(ms, ns[j].name)
  {
    var a := Object(ms);
    forall i | 0 <= i < |ms|
      ensures HasMemberNamed(ns, ms[i].name)
    {
      assert MatchedIn(a, i, ns);
      var j :| 0 <= j < |ns| && ns[j].name == ms[i].name && Equivalent(ms[i].value, ns[j].value);
    }
    forall j | 0 <= j < |ns|
      ensures HasMemberNamed(ms, ns[j].name)
    {
      assert Matches(a, ns[j]);
      var i :| 0 <= i < |ms| && ms[i].name == ns[j].name && Equivalent(ms[i].value, ns[j].value);
    }
  }

  lemma OptionEquivalentReflexive(a: Option<Value>)
    ensures OptionEquivalent(a, a)
  {
    if a.Some? {
      EquivalentReflexive(a.value);
    }
  }

  lemma OptionEquivalentSymmetric(a: Option<Value>, b: Option<Value>)
    requires OptionEquivalent(a, b)
    ensures OptionEquivalent(b, a)
  {
    if a.Some? {
      EquivalentSymmetric(a.value, b.value);
    }
  }

  lemma SeqEquivalentReflexive(xs: seq<Value>)
    ensures SeqEquivalent(xs, xs)
  {
    forall i | 0 <= i < |xs|
      ensures Equivalent(xs[i], xs[i])
    {
      EquivalentReflexive(xs[i]);
    }
  }

  lemma SeqEquivalentSymmetric(xs: seq<Value>, ys: seq<Value>)
    requires SeqEquivalent(xs, ys)
    ensures SeqEquivalent(ys, xs)
  {
    forall i | 0 <= i < |xs|
      ensures Equivalent(ys[i], xs[i])
    {
      EquivalentSymmetric(xs[i], ys[i]);
    }
  }

  lemma BagEquivalentReflexive(m: map<string, Value>)
    ensures BagEquivalent(m, m)
  {
    forall k | k in m
      ensures Equivalent(m[k], m[k])
    {
      EquivalentReflexive(m[k]);
    }
  }

  lemma BagEquivalentSymmetric(m: map<string, Value>, n: map<string, Value>)
    requires BagEquivalent(m, n)
    ensures BagEquivalent(n, m)
  {
    forall k | k in n
      ensures Equivalent(n[k], m[k])
    {
      EquivalentSymmetric(m[k], n[k]);
    }
  }

  /** Replacing one bag entry by an equivalent value keeps the bags equal. */
  lemma BagEquivalentUpdate(m: map<string, Value>, k: string, v: Value, w: Value)
    requires Equivalent(v, w)
    ensures BagEquivalent(m[k := v], m[k := w])
  {
    BagEquivalentReflexive(m);
  }
}
