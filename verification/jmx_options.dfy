/** `KafkaJmxOptions`: the optional authentication for the Kafka JMX port plus
    the unknown properties a newer schema may carry. The authentication's own
    structure is outside this model; it is an opaque JSON value. */
module JmxOptions {
  import opened Wrappers
  import opened Objects
  import opened Json
  import opened Serialisation

  type KafkaJmxAuthentication = Value

  datatype KafkaJmxOptions = KafkaJmxOptions(
    authentication: Option<KafkaJmxAuthentication>,
    additionalProperties: map<string, Value>)

  /** The one declared property, written under its `@JsonProperty` name. */
  const PropertyOrder: seq<string> := ["authentication"]

  /** Options as the no-argument constructor leaves them. */
  function New(): (o: KafkaJmxOptions)
    ensures o.authentication.None? && o.additionalProperties == map[]
  {
    KafkaJmxOptions(None, map[])
  }

  function SetAuthentication(o: KafkaJmxOptions, authentication: Option<KafkaJmxAuthentication>): (r: KafkaJmxOptions)
    ensures r.authentication == authentication
    ensures r.additionalProperties == o.additionalProperties
  {
    o.(authentication := authentication)
  }

  /** `setAdditionalProperty`: a plain map `put`, with no check against the
      declared property's name. */
  function SetAdditionalProperty(o: KafkaJmxOptions, name: string, value: Value): (r: KafkaJmxOptions)
    ensures name in r.additionalProperties && r.additionalProperties[name] == value
    ensures r.additionalProperties.Keys == o.additionalProperties.Keys + {name}
    ensures forall other :: other in o.additionalProperties && other != name ==>
      r.additionalProperties[other] == o.additionalProperties[other]
    ensures r.authentication == o.authentication
  {
    o.(additionalProperties := o.additionalProperties[name := value])
  }

  /** The declared property as written: `authentication` when it is set,
      nothing otherwise. */
  function SerialisedFields(o: KafkaJmxOptions): (fields: seq<Member<Value>>)
    ensures Subsequence(Names(fields), PropertyOrder)
    ensures Lookup(fields, "authentication") == o.authentication
  {
    SerialiseInOrder(PropertyOrder, [o.authentication]);
    SerialiseLookup(PropertyOrder, [o.authentication], 0);
    Serialise(PropertyOrder, [o.authentication])
  }

  /** Lombok's `equals`: the authentication and the unknown properties, both
      decoded JSON, so nested objects compare whatever the order of their
      members. */
  function Equals(a: KafkaJmxOptions, b: KafkaJmxOptions): (r: bool)
    ensures a == b ==> r
    ensures r ==> (a.authentication.Some? <==> b.authentication.Some?)
    ensures r ==> a.additionalProperties.Keys == b.additionalProperties.Keys
    ensures r <==>
      && (a.authentication.Some? <==> b.authentication.Some?)
      && (a.authentication.Some? ==> Equivalent(a.authentication.value, b.authentication.value))
      && a.additionalProperties.Keys == b.additionalProperties.Keys
      && (forall k :: k in a.additionalProperties ==> Equivalent(a.additionalProperties[k], b.additionalProperties[k]))
  {
    OptionEquivalentReflexive(a.authentication);
    BagEquivalentReflexive(a.additionalProperties);
    OptionEquivalent(a.authentication, b.authentication) && BagEquivalent(a.additionalProperties, b.additionalProperties)
  }

  /** Equality does not depend on the side it is asked from. */
  lemma EqualsSymmetric(a: KafkaJmxOptions, b: KafkaJmxOptions)
    requires Equals(a, b)
    ensures Equals(b, a)
  {
    OptionEquivalentSymmetric(a.authentication, b.authentication);
    BagEquivalentSymmetric(a.additionalProperties, b.additionalProperties);
  }

  /** An authentication read with its members in another order is the same
      authentication. */
  lemma EqualsIgnoresMemberOrder(o: KafkaJmxOptions, m1: Member<Value>, m2: Member<Value>)
    ensures Equals(SetAuthentication(o, Some(Object([m1, m2]))), SetAuthentication(o, Some(Object([m2, m1]))))
  {
    MemberOrderIgnored(m1, m2);
    BagEquivalentReflexive(o.additionalProperties);
  }

  /** Fresh options write no declared property. */
  lemma NewWritesNothing()
    ensures SerialisedFields(New()) == []
  {
  }

  /** A later `setAdditionalProperty` of the same name overwrites the earlier
      one, even under the name `authentication`, which leaves the declared
      property alone. */
  lemma AdditionalPropertyOverwrites(o: KafkaJmxOptions, n: string, v: Value, w: Value)
    ensures SetAdditionalProperty(SetAdditionalProperty(o, n, v), n, w) == SetAdditionalProperty(o, n, w)
    ensures SerialisedFields(SetAdditionalProperty(o, "authentication", v)) == SerialisedFields(o)
  {
  }
}
