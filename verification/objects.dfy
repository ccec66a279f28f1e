/** Objects as ordered sequences of named members, the way Vert.x
    `JsonObject` and Jackson's `LinkedHashMap` keep them: insertion order is
    kept and `put` replaces a member in place. Generic in the member values. */
module Objects {
  import opened Wrappers

  /** One named member of an object. */
  datatype Member<V> = Member(name: string, value: V)

  /** The member names, in order. */
  function Names<V>(members: seq<Member<V>>): (names: seq<string>)
    ensures |names| == |members|
  {
    if |members| == 0 then [] else [members[0].name] + Names(members[1..])
  }

  /** The `k`-th name is the `k`-th member's. */
  lemma {:induction false} NamesIndex<V>(members: seq<Member<V>>, k: nat)
    requires k < |members|
    ensures Names(members)[k] == members[k].name
  {
    if k > 0 {
      NamesIndex(members[1..], k - 1);
    }
  }

  /** The value of the first member called `name`. */
  function Lookup<V>(members: seq<Member<V>>, name: string): Option<V>
  {
    if |members| == 0 then None
    else if members[0].name == name then Some(members[0].value)
    else Lookup(members[1..], name)
  }

  /** `JsonObject.put`: a member already called `name` gets the new value in
      place; otherwise the member is added at the end. */
  function Put<V>(members: seq<Member<V>>, name: string, value: V): seq<Member<V>>
  {
    if |members| == 0 then [Member(name, value)]
    else if members[0].name == name then [Member(name, value)] + members[1..]
    else [members[0]] + Put(members[1..], name, value)
  }

  /** After `Put` the name reads back the new value and every other name
      its old one. */
  lemma {:induction false} PutLookup<V>(members: seq<Member<V>>, name: string, value: V, other: string)
    ensures Lookup(Put(members, name, value), name) == Some(value)
    ensures other != name ==> Lookup(Put(members, name, value), other) == Lookup(members, other)
  {
    if |members| > 0 && members[0].name != name {
      PutLookup(members[1..], name, value, other);
    }
  }

  /** `Put` of a name not yet present adds the member at the end. */
  lemma {:induction false} PutFresh<V>(members: seq<Member<V>>, name: string, value: V)
    requires forall k :: 0 <= k < |members| ==> members[k].name != name
    ensures Put(members, name, value) == members + [Member(name, value)]
  {
    if |members| > 0 {
      var rest := members[1..];
      assert forall k :: 0 <= k < |rest| ==> rest[k] == members[k + 1];
      PutFresh(rest, name, value);
      assert Put(members, name, value) == [members[0]] + (rest + [Member(name, value)]);
      assert members == [members[0]] + rest;
    }
  }

  /** An object built by putting `members` one after the other into an empty
      object. */
  function PutAll<V>(members: seq<Member<V>>): seq<Member<V>>
  {
    if |members| == 0 then []
    else Put(PutAll(members[..|members| - 1]), members[|members| - 1].name, members[|members| - 1].value)
  }

  /** No two members share a name. */
  predicate DistinctNames<V>(members: seq<Member<V>>) {
    forall i, j :: 0 <= i < j < |members| ==> members[i].name != members[j].name
  }

  /** Putting members with distinct names keeps every one of them, in the
      order they were put. */
  lemma {:induction false} PutAllDistinct<V>(members: seq<Member<V>>)
    requires DistinctNames(members)
    ensures PutAll(members) == members
  {
    if |members| > 0 {
      var n := |members| - 1;
      var init := members[..n];
      assert DistinctNames(init);
      PutAllDistinct(init);
      assert forall k :: 0 <= k < n ==> init[k] == members[k];
      PutFresh(init, members[n].name, members[n].value);
      assert init + [members[n]] == members;
    }
  }

  /** With distinct names, every member is what `Lookup` finds for its name. */
  lemma {:induction false} LookupDistinct<V>(members: seq<Member<V>>, k: nat)
    requires DistinctNames(members) && k < |members|
    ensures Lookup(members, members[k].name) == Some(members[k].value)
  {
    if k > 0 {
      assert members[0].name != members[k].name;
      assert members[1..][k - 1] == members[k];
      assert DistinctNames(members[1..]) by {
        forall i, j | 0 <= i < j < |members| - 1
          ensures members[1..][i].name != members[1..][j].name
        {
          assert members[1..][i] == members[i + 1] && members[1..][j] == members[j + 1];
        }
      }
      LookupDistinct(members[1..], k - 1);
    }
  }

  /** `Put` of a new name appends it; of a known name keeps the order. */
  lemma {:induction false} PutNames<V>(members: seq<Member<V>>, name: string, value: V)
    ensures name !in Names(members) ==> Names(Put(members, name, value)) == Names(members) + [name]
    ensures name in Names(members) ==> Names(Put(members, name, value)) == Names(members)
  {
    if |members| > 0 && members[0].name != name {
      PutNames(members[1..], name, value);
      assert Names(members)[1..] == Names(members[1..]);
    }
  }
}
