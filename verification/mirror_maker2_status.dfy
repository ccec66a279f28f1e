/** `KafkaMirrorMaker2Status`: the Kafka Connect status (conditions, observed
    generation, REST endpoint URL, and the unknown properties the base status
    keeps) extended by the connector statuses the Connect REST API reports.
    The base status classes are not part of this model beyond these fields;
    conditions and connector documents are opaque JSON. */
module MirrorMaker2Status {
  import opened Wrappers
  import opened Objects
  import opened Json
  import opened Serialisation

  type Condition = Value

  /** A connector status document as reported, members in the order they were
      read. */
  type Connector = seq<Member<Value>>

  /** The fields inherited from the base status, its bag of unknown
      properties included. */
  datatype BaseStatus = BaseStatus(
    conditions: Option<seq<Condition>>,
    observedGeneration: Option<int>,
    url: Option<string>,
    additionalProperties: map<string, Value>)

  datatype KafkaMirrorMaker2Status = KafkaMirrorMaker2Status(
    base: BaseStatus,
    connectors: Option<seq<Connector>>)

  /** The concrete status kinds that share the base fields. */
  datatype AnyStatus =
    | ConnectStatus(connectBase: BaseStatus)
    | MirrorMaker2(mirrorMaker2: KafkaMirrorMaker2Status)

  /** `@JsonPropertyOrder` of the class, followed by its own property. */
  const PropertyOrder: seq<string> := ["conditions", "observedGeneration", "url", "connectors"]

  /** A status with the given base fields and the connector list the field
      initialiser sets: empty, not null. */
  function New(base: BaseStatus): (s: KafkaMirrorMaker2Status)
    ensures s.base == base
    ensures s.connectors == Some([])
  {
    KafkaMirrorMaker2Status(base, Some([]))
  }

  function GetConnectors(s: KafkaMirrorMaker2Status): Option<seq<Connector>>
  {
    s.connectors
  }

  /** `setConnectors`: the whole list is replaced by the one given, null
      included. */
  function SetConnectors(s: KafkaMirrorMaker2Status, connectors: Option<seq<Connector>>): (r: KafkaMirrorMaker2Status)
    ensures GetConnectors(r) == connectors
    ensures r.base == s.base
  {
    s.(connectors := connectors)
  }

  /** The inherited `setAdditionalProperty`: a plain map `put` into the base
      status's bag; the declared fields and the connectors keep their
      values. */
  function SetAdditionalProperty(s: KafkaMirrorMaker2Status, name: string, value: Value): (r: KafkaMirrorMaker2Status)
    ensures name in r.base.additionalProperties && r.base.additionalProperties[name] == value
    ensures r.base.additionalProperties.Keys == s.base.additionalProperties.Keys + {name}
    ensures forall other :: other in s.base.additionalProperties && other != name ==>
      r.base.additionalProperties[other] == s.base.additionalProperties[other]
    ensures r.base.conditions == s.base.conditions && r.base.observedGeneration == s.base.observedGeneration
    ensures r.base.url == s.base.url && r.connectors == s.connectors
  {
    s.(base := s.base.(additionalProperties := s.base.additionalProperties[name := value]))
  }

  /** Each connector document as a JSON object, unchanged. */
  function ConnectorValues(connectors: seq<Connector>): (values: seq<Value>)
    ensures |values| == |connectors|
    ensures forall i :: 0 <= i < |connectors| ==> values[i] == Object(connectors[i])
  {
    if |connectors| == 0 then [] else [Object(connectors[0])] + ConnectorValues(connectors[1..])
  }

  /** `@JsonInclude(NON_EMPTY)`: a null or empty connector list is not
      written. */
  function ConnectorsProperty(connectors: Option<seq<Connector>>): (v: Option<Value>)
    ensures v.Some? <==> connectors.Some? && |connectors.value| > 0
    ensures v.Some? ==> v.value == Array(ConnectorValues(connectors.value))
  {
    if connectors.Some? && |connectors.value| > 0 then Some(Array(ConnectorValues(connectors.value))) else None
  }

  /** A base field that is null is not written (`@JsonInclude(NON_NULL)`). */
  function BaseProperties(base: BaseStatus): (values: seq<Option<Value>>)
    ensures |values| == 3
    ensures values[0].Some? <==> base.conditions.Some?
    ensures base.conditions.Some? ==> values[0] == Some(Array(base.conditions.value))
    ensures values[1].Some? <==> base.observedGeneration.Some?
    ensures base.observedGeneration.Some? ==> values[1] == Some(Int(base.observedGeneration.value))
    ensures values[2].Some? <==> base.url.Some?
    ensures base.url.Some? ==> values[2] == Some(Str(base.url.value))
  {
    [ if base.conditions.Some? then Some(Array(base.conditions.value)) else None,
      if base.observedGeneration.Some? then Some(Int(base.observedGeneration.value)) else None,
      if base.url.Some? then Some(Str(base.url.value)) else None ]
  }

  /** The properties as written: `conditions`, `observedGeneration` and `url`
      first and in that order, then `connectors`; each left out under its
      inclusion rule. */
  function SerialisedFields(s: KafkaMirrorMaker2Status): (fields: seq<Member<Value>>)
    ensures Subsequence(Names(fields), PropertyOrder)
    ensures Lookup(fields, "conditions") == BaseProperties(s.base)[0]
    ensures Lookup(fields, "observedGeneration") == BaseProperties(s.base)[1]
    ensures Lookup(fields, "url") == BaseProperties(s.base)[2]
    ensures Lookup(fields, "connectors") == ConnectorsProperty(s.connectors)
  {
    var values := BaseProperties(s.base) + [ConnectorsProperty(s.connectors)];
    SerialiseInOrder(PropertyOrder, values);
    SerialiseLookup(PropertyOrder, values, 0);
    SerialiseLookup(PropertyOrder, values, 1);
    SerialiseLookup(PropertyOrder, values, 2);
    SerialiseLookup(PropertyOrder, values, 3);
    Serialise(PropertyOrder, values)
  }

  /** Two condition lists, or two missing ones: a list compares in order,
      each condition as decoded JSON. */
  predicate ConditionsEquivalent(a: Option<seq<Condition>>, b: Option<seq<Condition>>) {
    if a.Some? then b.Some? && SeqEquivalent(a.value, b.value) else b.None?
  }

  /** Two connector lists, or two missing ones: the list compares in order,
      each document as a `Map`, whatever the order of its members. */
  predicate ConnectorsEquivalent(a: Option<seq<Connector>>, b: Option<seq<Connector>>) {
    if a.Some? then b.Some? && SeqEquivalent(ConnectorValues(a.value), ConnectorValues(b.value)) else b.None?
  }

  lemma ConditionsEquivalentReflexive(a: Option<seq<Condition>>)
    ensures ConditionsEquivalent(a, a)
  {
    if a.Some? {
      SeqEquivalentReflexive(a.value);
    }
  }

  lemma ConnectorsEquivalentReflexive(a: Option<seq<Connector>>)
    ensures ConnectorsEquivalent(a, a)
  {
    if a.Some? {
      SeqEquivalentReflexive(ConnectorValues(a.value));
    }
  }

  /** Lombok's `equals` of the base status: the three declared fields and the
      unknown properties, which compare as a `Map`. */
  function BaseEquals(a: BaseStatus, b: BaseStatus): (r: bool)
    ensures a == b ==> r
    ensures r ==> a.observedGeneration == b.observedGeneration && a.url == b.url
    ensures r ==> (a.conditions.Some? <==> b.conditions.Some?)
    ensures r ==> a.additionalProperties.Keys == b.additionalProperties.Keys
    ensures r <==>
      && (a.conditions.Some? <==> b.conditions.Some?)
      && (a.conditions.Some? ==> |a.conditions.value| == |b.conditions.value|)
      && (a.conditions.Some? ==> forall i :: 0 <= i < |a.conditions.value| ==>
            Equivalent(a.conditions.value[i], b.conditions.value[i]))
      && a.observedGeneration == b.observedGeneration
      && a.url == b.url
      && a.additionalProperties.Keys == b.additionalProperties.Keys
      && (forall k :: k in a.additionalProperties ==> Equivalent(a.additionalProperties[k], b.additionalProperties[k]))
  {
    ConditionsEquivalentReflexive(a.conditions);
    BagEquivalentReflexive(a.additionalProperties);
    && ConditionsEquivalent(a.conditions, b.conditions)
    && a.observedGeneration == b.observedGeneration
    && a.url == b.url
    && BagEquivalent(a.additionalProperties, b.additionalProperties)
  }

  /** Lombok's `equals` with `callSuper`: the base fields and the connector
      list. */
  function Equals(a: KafkaMirrorMaker2Status, b: KafkaMirrorMaker2Status): (r: bool)
    ensures a == b ==> r
    ensures r ==> a.base.observedGeneration == b.base.observedGeneration && a.base.url == b.base.url
    ensures r ==> (a.connectors.Some? <==> b.connectors.Some?)
    ensures r && a.connectors.Some? ==> |a.connectors.value| == |b.connectors.value|
    ensures r <==>
      && BaseEquals(a.base, b.base)
      && (a.connectors.Some? <==> b.connectors.Some?)
      && (a.connectors.Some? ==> |a.connectors.value| == |b.connectors.value|)
      && (a.connectors.Some? ==> forall i :: 0 <= i < |a.connectors.value| ==>
            Equivalent(Object(a.connectors.value[i]), Object(b.connectors.value[i])))
  {
    ConnectorsEquivalentReflexive(a.connectors);
    BaseEquals(a.base, b.base) && ConnectorsEquivalent(a.connectors, b.connectors)
  }

  /** Equality between statuses of any kind: statuses of different kinds are
      never equal, whatever their base fields. */
  function StatusEquals(a: AnyStatus, b: AnyStatus): (r: bool)
    ensures a == b ==> r
    ensures a.ConnectStatus? != b.ConnectStatus? ==> !r
    ensures a.MirrorMaker2? && b.MirrorMaker2? ==> r == Equals(a.mirrorMaker2, b.mirrorMaker2)
  {
    match (a, b)
    case (ConnectStatus(x), ConnectStatus(y)) => BaseEquals(x, y)
    case (MirrorMaker2(x), MirrorMaker2(y)) => Equals(x, y)
    case _ => false
  }

  /** Equality does not depend on the side it is asked from. */
  lemma EqualsSymmetric(a: KafkaMirrorMaker2Status, b: KafkaMirrorMaker2Status)
    requires Equals(a, b)
    ensures Equals(b, a)
  {
    if a.base.conditions.Some? {
      SeqEquivalentSymmetric(a.base.conditions.value, b.base.conditions.value);
    }
    BagEquivalentSymmetric(a.base.additionalProperties, b.base.additionalProperties);
    if a.connectors.Some? {
      SeqEquivalentSymmetric(ConnectorValues(a.connectors.value), ConnectorValues(b.connectors.value));
    }
  }

  /** A connector document reported with its members in another order is the
      same document. */
  lemma EqualsIgnoresMemberOrder(s: KafkaMirrorMaker2Status, m1: Member<Value>, m2: Member<Value>)
    ensures Equals(SetConnectors(s, Some([[m1, m2]])), SetConnectors(s, Some([[m2, m1]])))
  {
    MemberOrderIgnored(m1, m2);
    var a, b := SetConnectors(s, Some([[m1, m2]])), SetConnectors(s, Some([[m2, m1]]));
    assert ConnectorValues([[m1, m2]]) == [Object([m1, m2])];
    assert ConnectorValues([[m2, m1]]) == [Object([m2, m1])];
    assert BaseEquals(a.base, b.base);
  }

  /** An unknown status property holding an object is the same property
      whatever the order its members were read in. */
  lemma EqualsIgnoresUnknownMemberOrder(s: KafkaMirrorMaker2Status, name: string, m1: Member<Value>, m2: Member<Value>)
    ensures Equals(SetAdditionalProperty(s, name, Object([m1, m2])), SetAdditionalProperty(s, name, Object([m2, m1])))
  {
    MemberOrderIgnored(m1, m2);
    ConditionsEquivalentReflexive(s.base.conditions);
    ConnectorsEquivalentReflexive(s.connectors);
    BagEquivalentUpdate(s.base.additionalProperties, name, Object([m1, m2]), Object([m2, m1]));
  }

  /** Unknown properties take part in equality: statuses that differ only in
      the value of one unknown property are equal exactly when those values
      are. */
  lemma EqualsComparesUnknownProperties(s: KafkaMirrorMaker2Status, name: string, v: Value, w: Value)
    ensures Equals(SetAdditionalProperty(s, name, v), SetAdditionalProperty(s, name, w)) <==> Equivalent(v, w)
  {
    var a, b := SetAdditionalProperty(s, name, v), SetAdditionalProperty(s, name, w);
    ConditionsEquivalentReflexive(s.base.conditions);
    ConnectorsEquivalentReflexive(s.connectors);
    if Equivalent(v, w) {
      BagEquivalentUpdate(s.base.additionalProperties, name, v, w);
    } else {
      assert a.base.additionalProperties[name] == v && b.base.additionalProperties[name] == w;
    }
  }

  /** A later value for the same unknown name replaces the earlier one, and
      an unknown property called `connectors` leaves the connectors and their
      written form alone. */
  lemma AdditionalPropertyOverwrites(s: KafkaMirrorMaker2Status, n: string, v: Value, w: Value)
    ensures SetAdditionalProperty(SetAdditionalProperty(s, n, v), n, w) == SetAdditionalProperty(s, n, w)
    ensures SerialisedFields(SetAdditionalProperty(s, "connectors", v)) == SerialisedFields(s)
  {
  }

  /** A fresh status writes no `connectors` property. */
  lemma NewOmitsConnectors(base: BaseStatus)
    ensures Lookup(SerialisedFields(New(base)), "connectors").None?
  {
  }

  /** The documents set are the documents written, each one unchanged, in the
      order given. */
  lemma ConnectorsWrittenAsGiven(s: KafkaMirrorMaker2Status, connectors: seq<Connector>)
    requires |connectors| > 0
    ensures var written := Lookup(SerialisedFields(SetConnectors(s, Some(connectors))), "connectors");
      && written.Some? && written.value.Array?
      && |written.value.items| == |connectors|
      && forall i :: 0 <= i < |connectors| ==> written.value.items[i] == Object(connectors[i])
  {
  }

  /** The second of two `setConnectors` calls is the one that stays. */
  lemma SetConnectorsOverwrites(s: KafkaMirrorMaker2Status, a: Option<seq<Connector>>, b: Option<seq<Connector>>)
    ensures SetConnectors(SetConnectors(s, a), b) == SetConnectors(s, b)
  {
  }
}
