/** `KafkaExporterTemplate`: four optional sub-templates for the Kafka
    Exporter's deployment, pods, service and container, plus the unknown
    properties a newer schema may carry. The sub-templates' own structure is
    outside this model; each is an opaque JSON value. */
module ExporterTemplate {
  import opened Wrappers
  import opened Objects
  import opened Json
  import opened Serialisation

  type ResourceTemplate = Value
  type PodTemplate = Value
  type ContainerTemplate = Value

  datatype KafkaExporterTemplate = KafkaExporterTemplate(
    deployment: Option<ResourceTemplate>,
    pod: Option<PodTemplate>,
    service: Option<ResourceTemplate>,
    container: Option<ContainerTemplate>,
    additionalProperties: map<string, Value>)

  /** `@JsonPropertyOrder` of the class. */
  const PropertyOrder: seq<string> := ["deployment", "pod", "service", "container"]

  /** A template as the no-argument constructor leaves it. */
  function New(): (t: KafkaExporterTemplate)
    ensures t.deployment.None? && t.pod.None? && t.service.None? && t.container.None?
    ensures t.additionalProperties == map[]
  {
    KafkaExporterTemplate(None, None, None, None, map[])
  }

  function SetDeployment(t: KafkaExporterTemplate, deployment: Option<ResourceTemplate>): (r: KafkaExporterTemplate)
    ensures r.deployment == deployment
    ensures r.pod == t.pod && r.service == t.service && r.container == t.container
    ensures r.additionalProperties == t.additionalProperties
  {
    t.(deployment := deployment)
  }

  function SetPod(t: KafkaExporterTemplate, pod: Option<PodTemplate>): (r: KafkaExporterTemplate)
    ensures r.pod == pod
    ensures r.deployment == t.deployment && r.service == t.service && r.container == t.container
    ensures r.additionalProperties == t.additionalProperties
  {
    t.(pod := pod)
  }

  function SetService(t: KafkaExporterTemplate, service: Option<ResourceTemplate>): (r: KafkaExporterTemplate)
    ensures r.service == service
    ensures r.deployment == t.deployment && r.pod == t.pod && r.container == t.container
    ensures r.additionalProperties == t.additionalProperties
  {
    t.(service := service)
  }

  function SetContainer(t: KafkaExporterTemplate, container: Option<ContainerTemplate>): (r: KafkaExporterTemplate)
    ensures r.container == container
    ensures r.deployment == t.deployment && r.pod == t.pod && r.service == t.service
    ensures r.additionalProperties == t.additionalProperties
  {
    t.(container := container)
  }

  /** `setAdditionalProperty`: a plain map `put`. A name that is also a
      declared property is stored like any other; the declared field keeps its
      value. */
  function SetAdditionalProperty(t: KafkaExporterTemplate, name: string, value: Value): (r: KafkaExporterTemplate)
    ensures name in r.additionalProperties && r.additionalProperties[name] == value
    ensures r.additionalProperties.Keys == t.additionalProperties.Keys + {name}
    ensures forall other :: other in t.additionalProperties && other != name ==>
      r.additionalProperties[other] == t.additionalProperties[other]
    ensures r.deployment == t.deployment && r.pod == t.pod && r.service == t.service && r.container == t.container
  {
    t.(additionalProperties := t.additionalProperties[name := value])
  }

  /** The declared properties as written: in the order of `PropertyOrder`, a
      missing sub-template left out. */
  function SerialisedFields(t: KafkaExporterTemplate): (fields: seq<Member<Value>>)
    ensures Subsequence(Names(fields), PropertyOrder)
    ensures Lookup(fields, "deployment") == t.deployment
    ensures Lookup(fields, "pod") == t.pod
    ensures Lookup(fields, "service") == t.service
    ensures Lookup(fields, "container") == t.container
  {
    var values := [t.deployment, t.pod, t.service, t.container];
    SerialiseInOrder(PropertyOrder, values);
    SerialiseLookup(PropertyOrder, values, 0);
    SerialiseLookup(PropertyOrder, values, 1);
    SerialiseLookup(PropertyOrder, values, 2);
    SerialiseLookup(PropertyOrder, values, 3);
    Serialise(PropertyOrder, values)
  }

  /** Lombok's `equals`: field by field, the unknown properties included.
      Each field holds decoded JSON, so nested objects compare as `Map`s do,
      whatever the order of their members. */
  function Equals(a: KafkaExporterTemplate, b: KafkaExporterTemplate): (r: bool)
    ensures a == b ==> r
    ensures r ==> (a.deployment.Some? <==> b.deployment.Some?) && (a.pod.Some? <==> b.pod.Some?)
    ensures r ==> (a.service.Some? <==> b.service.Some?) && (a.container.Some? <==> b.container.Some?)
    ensures r ==> a.additionalProperties.Keys == b.additionalProperties.Keys
    ensures r <==>
      && (a.deployment.Some? <==> b.deployment.Some?)
      && (a.deployment.Some? ==> Equivalent(a.deployment.value, b.deployment.value))
      && (a.pod.Some? <==> b.pod.Some?)
      && (a.pod.Some? ==> Equivalent(a.pod.value, b.pod.value))
      && (a.service.Some? <==> b.service.Some?)
      && (a.service.Some? ==> Equivalent(a.service.value, b.service.value))
      && (a.container.Some? <==> b.container.Some?)
      && (a.container.Some? ==> Equivalent(a.container.value, b.container.value))
      && a.additionalProperties.Keys == b.additionalProperties.Keys
      && (forall k :: k in a.additionalProperties ==> Equivalent(a.additionalProperties[k], b.additionalProperties[k]))
  {
    OptionEquivalentReflexive(a.deployment);
    OptionEquivalentReflexive(a.pod);
    OptionEquivalentReflexive(a.service);
    OptionEquivalentReflexive(a.container);
    BagEquivalentReflexive(a.additionalProperties);
    && OptionEquivalent(a.deployment, b.deployment)
    && OptionEquivalent(a.pod, b.pod)
    && OptionEquivalent(a.service, b.service)
    && OptionEquivalent(a.container, b.container)
    && BagEquivalent(a.additionalProperties, b.additionalProperties)
  }

  /** Equality does not depend on the side it is asked from. */
  lemma EqualsSymmetric(a: KafkaExporterTemplate, b: KafkaExporterTemplate)
    requires Equals(a, b)
    ensures Equals(b, a)
  {
    OptionEquivalentSymmetric(a.deployment, b.deployment);
    OptionEquivalentSymmetric(a.pod, b.pod);
    OptionEquivalentSymmetric(a.service, b.service);
    OptionEquivalentSymmetric(a.container, b.container);
    BagEquivalentSymmetric(a.additionalProperties, b.additionalProperties);
  }

  /** An unknown property holding an object is the same property whatever
      the order its members were read in. */
  lemma EqualsIgnoresMemberOrder(t: KafkaExporterTemplate, name: string, m1: Member<Value>, m2: Member<Value>)
    ensures Equals(SetAdditionalProperty(t, name, Object([m1, m2])), SetAdditionalProperty(t, name, Object([m2, m1])))
  {
    MemberOrderIgnored(m1, m2);
    OptionEquivalentReflexive(t.deployment);
    OptionEquivalentReflexive(t.pod);
    OptionEquivalentReflexive(t.service);
    OptionEquivalentReflexive(t.container);
    BagEquivalentUpdate(t.additionalProperties, name, Object([m1, m2]), Object([m2, m1]));
  }

  /** A fresh template writes no declared property. */
  lemma NewWritesNothing()
    ensures SerialisedFields(New()) == []
  {
    var values: seq<Option<Value>> := [None, None, None, None];
    assert Serialise(PropertyOrder[3..], values[3..]) == [];
    assert Serialise(PropertyOrder[2..], values[2..]) == [];
    assert Serialise(PropertyOrder[1..], values[1..]) == [];
  }

  /** The second of two settings of the same field is the one that stays. */
  lemma SetterOverwrites(t: KafkaExporterTemplate, a: Option<Value>, b: Option<Value>)
    ensures SetDeployment(SetDeployment(t, a), b) == SetDeployment(t, b)
    ensures SetPod(SetPod(t, a), b) == SetPod(t, b)
    ensures SetService(SetService(t, a), b) == SetService(t, b)
    ensures SetContainer(SetContainer(t, a), b) == SetContainer(t, b)
  {
  }

  /** Setting one sub-template changes the written form only under its own
      name. */
  lemma SetPodKeepsOtherFields(t: KafkaExporterTemplate, pod: Option<PodTemplate>)
    ensures var before, after := SerialisedFields(t), SerialisedFields(SetPod(t, pod));
      && Lookup(after, "pod") == pod
      && Lookup(after, "deployment") == Lookup(before, "deployment")
      && Lookup(after, "service") == Lookup(before, "service")
      && Lookup(after, "container") == Lookup(before, "container")
  {
  }

  /** A later `setAdditionalProperty` of the same name overwrites the earlier
      one; puts of different names commute. */
  lemma AdditionalPropertyOverwrites(t: KafkaExporterTemplate, n: string, m: string, v: Value, w: Value)
    ensures SetAdditionalProperty(SetAdditionalProperty(t, n, v), n, w) == SetAdditionalProperty(t, n, w)
    ensures n != m ==>
      SetAdditionalProperty(SetAdditionalProperty(t, n, v), m, w) == SetAdditionalProperty(SetAdditionalProperty(t, m, w), n, v)
  {
  }

  /** Storing an unknown property under a declared name leaves the declared
      property and its written form alone. */
  lemma AdditionalPropertyDoesNotShadow(t: KafkaExporterTemplate, v: Value)
    ensures SerialisedFields(SetAdditionalProperty(t, "deployment", v)) == SerialisedFields(t)
  {
  }
}
