/** How the resource-model classes write their declared properties: in the
    order their `@JsonPropertyOrder` gives, leaving out the ones their
    `@JsonInclude` rule omits. A property is given as an optional value; `None`
    is a property the rule leaves out. */
module Serialisation {
  import opened Wrappers
  import opened Objects

  /** No name occurs twice in `order`. */
  predicate DistinctStrings(order: seq<string>) {
    forall i, j :: 0 <= i < j < |order| ==> order[i] != order[j]
  }

  /** `names` is `order` with some names left out: the names that are there
      come in the order `order` gives them. */
  predicate Subsequence(names: seq<string>, order: seq<string>)
    decreases |order|
  {
    |names| == 0
    || (|order| > 0
        && ((names[0] == order[0] && Subsequence(names[1..], order[1..])) || Subsequence(names, order[1..])))
  }

  /** A property written only when it has a value. */
  function OptionalMember<V>(name: string, value: Option<V>): seq<Member<V>>
  {
    match value
    case None => []
    case Some(v) => [Member(name, v)]
  }

  /** The declared properties in `order`, each written when it has a value. */
  function Serialise<V>(order: seq<string>, values: seq<Option<V>>): seq<Member<V>>
    requires |order| == |values|
  {
    if |order| == 0 then [] else OptionalMember(order[0], values[0]) + Serialise(order[1..], values[1..])
  }

  lemma NamesCons<V>(m: Member<V>, rest: seq<Member<V>>)
    ensures Names([m] + rest) == [m.name] + Names(rest)
  {
    assert ([m] + rest)[1..] == rest;
  }

  /** A lookup in a concatenation finds the first part's member if it has
      one, else the second part's. */
  lemma {:induction false} LookupConcat<V>(a: seq<Member<V>>, b: seq<Member<V>>, name: string)
    ensures Lookup(a + b, name) == if Lookup(a, name).Some? then Lookup(a, name) else Lookup(b, name)
  {
    if |a| == 0 {
      assert a + b == b;
    } else {
      assert (a + b)[0] == a[0];
      assert (a + b)[1..] == a[1..] + b;
      if a[0].name != name {
        LookupConcat(a[1..], b, name);
        assert Lookup(a + b, name) == Lookup(a[1..] + b, name);
        assert Lookup(a, name) == Lookup(a[1..], name);
      }
    }
  }

  /** The written names are the declared order with the omitted properties
      left out. */
  lemma {:induction false} SerialiseInOrder<V>(order: seq<string>, values: seq<Option<V>>)
    requires |order| == |values|
    ensures Subsequence(Names(Serialise(order, values)), order)
  {
    if |order| > 0 {
      var head := OptionalMember(order[0], values[0]);
      var tail := Serialise(order[1..], values[1..]);
      SerialiseInOrder(order[1..], values[1..]);
      var names := Names(head + tail);
      if values[0].Some? {
        NamesCons(Member(order[0], values[0].value), tail);
        assert names == [order[0]] + Names(tail);
        assert names[0] == order[0] && names[1..] == Names(tail);
      } else {
        assert head + tail == tail;
      }
    }
  }

  /** Each declared property reads back the value it was given; one without a
      value is not written. */
  lemma {:induction false} SerialiseLookup<V>(order: seq<string>, values: seq<Option<V>>, k: nat)
    requires |order| == |values| && DistinctStrings(order) && k < |order|
    ensures Lookup(Serialise(order, values), order[k]) == values[k]
  {
    var head := OptionalMember(order[0], values[0]);
    var tail := Serialise(order[1..], values[1..]);
    assert Serialise(order, values) == head + tail;
    LookupConcat(head, tail, order[k]);
    if k == 0 {
      assert order[0] !in order[1..] by {
        forall i | 0 <= i < |order| - 1 ensures order[1..][i] != order[0] {
          assert order[1..][i] == order[i + 1];
        }
      }
      SerialiseAbsent(order[1..], values[1..], order[0]);
    } else {
      var rest := order[1..];
      assert DistinctStrings(rest) by {
        forall i, j | 0 <= i < j < |rest| ensures rest[i] != rest[j] {
          assert rest[i] == order[i + 1] && rest[j] == order[j + 1];
        }
      }
      assert order[0] != order[k];
      assert Lookup(head, order[k]).None?;
      assert rest[k - 1] == order[k];
      SerialiseLookup(rest, values[1..], k - 1);
    }
  }

  /** A name outside the declared order is never written. */
  lemma {:induction false} SerialiseAbsent<V>(order: seq<string>, values: seq<Option<V>>, name: string)
    requires |order| == |values| && name !in order
    ensures Lookup(Serialise(order, values), name).None?
  {
    if |order| > 0 {
      var head := OptionalMember(order[0], values[0]);
      var tail := Serialise(order[1..], values[1..]);
      assert Serialise(order, values) == head + tail;
      LookupConcat(head, tail, name);
      SerialiseAbsent(order[1..], values[1..], name);
    }
  }
}
