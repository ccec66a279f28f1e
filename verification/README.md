# Strimzi system-test utilities and three resource-model classes, in Dafny

This project models the pure part of Strimzi's system-test helper class
`StUtils` and three value classes of the Strimzi `api` module. Each operation
is written as a Dafny function or method, and the properties the code
promises are proved about it.

**StUtils**
- Image rewriting:
  - `changeOrgAndTag` moves a container image reference to the configured
    registry, organisation and tag;
  - `changeOrgAndTagInImageMap` does the same for every image of a
    `version=image` map text;
  - `setImageProperties` and `buildTag` are the helpers they use.
- Properties text:
  - `getLinesWithoutCommentsAndEmptyLines` reads the lines of a
    configuration text;
  - `stringToProperties` turns them into a key/value table.
- Small builders:
  - `globalVariableJsonPathBuilder` builds the JSONPath to an environment
    variable;
  - both `expectedServiceDiscoveryInfo` overloads build the service-discovery
    JSON;
  - `createContainerEnvVarsFromMap` builds container environment variables
    from a map.

**The api module**
- `KafkaExporterTemplate`, `KafkaJmxOptions` and `KafkaMirrorMaker2Status`:
  - their fields and setters;
  - the extension bag of unknown properties, which the MirrorMaker 2 status
    inherits from its base status;
  - Lombok's field-wise `equals`;
  - the properties Jackson writes: their order from `@JsonPropertyOrder`, and
    which ones are left out under `@JsonInclude`.

**How the code is written here**
- The source's regular expressions become explicit splitters and scanners,
  each with a lemma stating which match it finds:
  - the component pattern: `FindComponentIsLeftmostMarker`;
  - the two image-path patterns: `ParseFullPathComplete` and
    `ParseShortPathComplete`;
  - the `version=image` pattern: `TokenAtIsTheMatch`, `VersionRunIsMaximal`
    and `ImageRunIsMaximal`;
  - the line separator `\r?\n`: `LinePiecesOneLine`,
    `LinePiecesCarriageReturnLineFeed`, `LinePiecesLineFeed` and
    `LinePiecesWithoutCarriageReturns`;
  - `split("=")`: `JavaSplitParts` and `ParseLineReference`.
- Java's `String.split` is written out with its rule for dropping trailing
  empty strings.
- The `Environment` values the image rewriting reads are a parameter,
  `ImageReference.ImageConfig`.

Modules, one per file:
- `Wrappers`: `Option` and `Result`.
- `Strings`: character-level helpers.
- `ImageReference`, `MapScan` and `ImageMap`: image rewriting.
- `PropertiesText`: lines and properties.
- `JavaInt`: Java `int` and its decimal text.
- `JsonPath`.
- `Objects` and `Json`: JSON objects kept in insertion order, and the
  equality Java gives them once decoded, which ignores that order.
- `ServiceDiscovery`.
- `ContainerEnv`.
- `Serialisation`: Jackson's order and inclusion rules.
- `ExporterTemplate`, `JmxOptions` and `MirrorMaker2Status`.

## Model

| member | source | states |
|---|---|---|
| ImageReference.SetImageProperty | systemtest/src/main/java/io/strimzi/systemtest/utils/StUtils.java:110-115 | A configured value that differs from its default always wins. When it equals its default, the part already in the image is kept. |
| ImageReference.FindComponentIsLeftmostMarker | systemtest/src/main/java/io/strimzi/systemtest/utils/StUtils.java:40 | The unanchored search for the component pattern (a lazy prefix, the word `kafka` between two separators, then the rest) always stops at the leftmost `kafka` marker in the tag, whatever precedes it, and finds nothing when there is no marker. A separator is a minus sign, a vertical bar or an underscore. |
| ImageReference.BuildTag | systemtest/src/main/java/io/strimzi/systemtest/utils/StUtils.java:117-127 | The tag is kept when it already equals the configured tag or when no tag was configured. Otherwise it becomes the configured tag followed by the old tag's suffix from its Kafka marker on, or just the configured tag when there is no marker. |
| ImageReference.BuildTagIdempotent | systemtest/src/main/java/io/strimzi/systemtest/utils/StUtils.java:117-127 | With a configured tag free of separators, rebuilding an already rebuilt tag changes nothing. |
| ImageReference.ParseFullPathComplete | systemtest/src/main/java/io/strimzi/systemtest/utils/StUtils.java:42 | Whenever `registry/org/image:tag` can match, the splitter returns exactly that decomposition, so the match is unique. |
| ImageReference.ParseShortPathComplete | systemtest/src/main/java/io/strimzi/systemtest/utils/StUtils.java:43 | Whenever `org/image:tag` can match, the splitter returns exactly that decomposition. |
| ImageReference.ChangeOrgAndTagFullPath | systemtest/src/main/java/io/strimzi/systemtest/utils/StUtils.java:84-90 | A full-path reference keeps its image name. Its registry, organisation and tag are chosen by the helpers. |
| ImageReference.ChangeOrgAndTagShortPath | systemtest/src/main/java/io/strimzi/systemtest/utils/StUtils.java:91-96 | A short reference that is not a full path gets the configured registry in front, even when that registry is the default. Its organisation is chosen and its tag rebuilt. |
| ImageReference.ChangeOrgAndTagUnmatched | systemtest/src/main/java/io/strimzi/systemtest/utils/StUtils.java:97 | A string of neither shape comes back unchanged. |
| ImageReference.ChangeOrgAndTagDefaultsKeepFullPath | systemtest/src/main/java/io/strimzi/systemtest/utils/StUtils.java:83-98 | With every configured value equal to its default, a full-path reference is unchanged. |
| ImageReference.ChangeOrgAndTagIdempotent | systemtest/src/main/java/io/strimzi/systemtest/utils/StUtils.java:83-98 | When the configured registry and organisation have no `/` and the tag has no separators, a rewritten reference is stable under a second rewrite. |
| ImageReference.RewrittenIsStable | systemtest/src/main/java/io/strimzi/systemtest/utils/StUtils.java:84-90 | A full path whose parts already meet the configuration is left alone. |
| MapScan.VersionRunIsMaximal | systemtest/src/main/java/io/strimzi/systemtest/utils/StUtils.java:45 | The greedy `[0-9.]+` run consists of version characters and is maximal. |
| MapScan.ImageRunIsMaximal | systemtest/src/main/java/io/strimzi/systemtest/utils/StUtils.java:45 | The greedy `[^\s]*` run has no whitespace and stops at whitespace or at the end. |
| MapScan.TokenAtIsTheMatch | systemtest/src/main/java/io/strimzi/systemtest/utils/StUtils.java:45 | At a position, the scanner finds a token exactly when a `[0-9.]+` run followed by `=` starts there. The `=` it reports is the one after that run, and the image runs from there up to the first whitespace or the end. |
| MapScan.SegmentsWellFormed | systemtest/src/main/java/io/strimzi/systemtest/utils/StUtils.java:45 | Every token the scan finds has a nonempty version of `[0-9.]` characters. Its image has no whitespace and no line terminator. |
| MapScan.FlattenSegments | systemtest/src/main/java/io/strimzi/systemtest/utils/StUtils.java:101-107 | The tokens and the copied characters between them make up the whole text, in order. |
| MapScan.ReplaceImages | systemtest/src/main/java/io/strimzi/systemtest/utils/StUtils.java:101-107 | The `find`/`appendReplacement`/`appendTail` loop produces the reference tokenisation with each image replaced and everything else copied. |
| MapScan.RewrittenKeepsFixedImages | systemtest/src/main/java/io/strimzi/systemtest/utils/StUtils.java:103-106 | When the rewriting keeps every image, the output is the input. |
| MapScan.NoEqualsNoToken | systemtest/src/main/java/io/strimzi/systemtest/utils/StUtils.java:45 | A text without `=` has no token and comes back unchanged. |
| ImageMap.ChangeOrgAndTagInImageMap | systemtest/src/main/java/io/strimzi/systemtest/utils/StUtils.java:100-108 | Every `version=image` token keeps its version and gets its image rewritten by `changeOrgAndTag`. Every other character is copied, and every image is one `changeOrgAndTag` accepts. |
| ImageMap.ImageMapUnchangedWhenImagesFixed | systemtest/src/main/java/io/strimzi/systemtest/utils/StUtils.java:100-108 | A map whose images are all fixed points of `changeOrgAndTag` comes back unchanged. |
| Strings.RemoveAll | systemtest/src/main/java/io/strimzi/systemtest/utils/StUtils.java:203-204 | `replace(" ", "")` removes every space and keeps every other character. A line without spaces is returned unchanged. |
| Strings.RemoveAllConcat | systemtest/src/main/java/io/strimzi/systemtest/utils/StUtils.java:203-204 | Removing spaces works character by character: from a concatenation it removes them from each part. |
| Strings.RemoveAllOfOnly | systemtest/src/main/java/io/strimzi/systemtest/utils/StUtils.java:203-204 | A line made of spaces only becomes the empty string. |
| PropertiesText.JoinSplitOn | systemtest/src/main/java/io/strimzi/systemtest/utils/StUtils.java:188 | The pieces between separators, joined again, give the text back. |
| PropertiesText.SplitOnJoin | systemtest/src/main/java/io/strimzi/systemtest/utils/StUtils.java:188 | Pieces free of the separator, once joined, split back into the same pieces. |
| PropertiesText.SplitOnAllEmpty | systemtest/src/main/java/io/strimzi/systemtest/utils/StUtils.java:188 | Every piece is empty exactly when the text consists of the separator only. |
| PropertiesText.JavaSplitParts | systemtest/src/main/java/io/strimzi/systemtest/utils/StUtils.java:188 | No part of `split` contains the separator. When the separator occurs, the last part is not empty. |
| PropertiesText.LinePiecesOneLine | systemtest/src/main/java/io/strimzi/systemtest/utils/StUtils.java:199 | A text without a line feed is one line, a carriage return in it included. |
| PropertiesText.LinePiecesCarriageReturnLineFeed | systemtest/src/main/java/io/strimzi/systemtest/utils/StUtils.java:199 | `\r\n` ends a line, and neither character stays in it. |
| PropertiesText.LinePiecesLineFeed | systemtest/src/main/java/io/strimzi/systemtest/utils/StUtils.java:199 | A line feed alone ends a line as well, and a line not ending in a carriage return is kept whole. |
| PropertiesText.LinePiecesWithoutCarriageReturns | systemtest/src/main/java/io/strimzi/systemtest/utils/StUtils.java:199 | On text without `\r`, splitting at `\r?\n` is splitting at `\n` and loses nothing. |
| PropertiesText.GetLinesShape | systemtest/src/main/java/io/strimzi/systemtest/utils/StUtils.java:198-208 | Every returned line has no space and no line feed and does not start with `#`. Each one is a nonempty input line with its spaces removed. |
| PropertiesText.GetLinesKeepsEveryLine | systemtest/src/main/java/io/strimzi/systemtest/utils/StUtils.java:202-206 | Every nonempty, non-comment input line is returned with its spaces removed. |
| PropertiesText.CleanLinesAppend | systemtest/src/main/java/io/strimzi/systemtest/utils/StUtils.java:202-206 | Lines are filtered one by one, in order. |
| PropertiesText.SpacesOnlyLineKept | systemtest/src/main/java/io/strimzi/systemtest/utils/StUtils.java:203 | Every nonempty line of spaces only is kept, as an empty line, because the emptiness test looks at the line before its spaces are removed. This holds inside a text and for a text that is such a line. |
| PropertiesText.ParseLineReference | systemtest/src/main/java/io/strimzi/systemtest/utils/StUtils.java:188-189 | A line fails exactly when it is nonempty and made of `=` only. Otherwise the key is the text before the first `=` and the value is the text between the first and second `=`, empty when there is none. |
| PropertiesText.LastValueIsLast | systemtest/src/main/java/io/strimzi/systemtest/utils/StUtils.java:187-190 | The value recorded for a key comes from a line with that key, and no later line has the key. |
| PropertiesText.LastValueAbsent | systemtest/src/main/java/io/strimzi/systemtest/utils/StUtils.java:187-190 | A key that no line has gets no value. |
| PropertiesText.TableOfLastValue | systemtest/src/main/java/io/strimzi/systemtest/utils/StUtils.java:187-190 | Putting the lines in order gives a table holding the last value of each key and no other keys. |
| PropertiesText.PutLines | systemtest/src/main/java/io/strimzi/systemtest/utils/StUtils.java:187-190 | The result is an error exactly when some line has no key, and the error names the first such line, where Java throws. Otherwise each key holds the value of its last line. |
| PropertiesText.StringToProperties | systemtest/src/main/java/io/strimzi/systemtest/utils/StUtils.java:184-192 | The same statement over the cleaned lines of the text. |
| JavaInt.IntToStringRoundTrip | systemtest/src/main/java/io/strimzi/systemtest/utils/StUtils.java:181 | The decimal text of an `int` reads back as the same number. |
| JavaInt.IntToStringInjective | systemtest/src/main/java/io/strimzi/systemtest/utils/StUtils.java:181 | Different numbers have different decimal texts. |
| JsonPath.GlobalVariableJsonPath | systemtest/src/main/java/io/strimzi/systemtest/utils/StUtils.java:180-182 | The path starts with `$.spec.containers[` and ends with `')].value`. Its length accounts for the index text, the filter and the name. |
| JsonPath.ParseBuiltPath | systemtest/src/main/java/io/strimzi/systemtest/utils/StUtils.java:180-182 | Every built path reads back as the container index and the variable name it was built from, for any name. |
| JsonPath.GlobalVariableJsonPathInjective | systemtest/src/main/java/io/strimzi/systemtest/utils/StUtils.java:180-182 | Different indices or names give different paths. |
| Objects.PutLookup | systemtest/src/main/java/io/strimzi/systemtest/utils/StUtils.java:211-215 | After `put`, the name reads back the new value and every other name its old one. |
| Objects.PutFresh | systemtest/src/main/java/io/strimzi/systemtest/utils/StUtils.java:211-215 | `put` of a name not yet present appends the member at the end. |
| Objects.PutNames | systemtest/src/main/java/io/strimzi/systemtest/utils/StUtils.java:211-215 | `put` of a new name appends it to the member names; `put` of a known name keeps them as they are. |
| ServiceDiscovery.ListenerInfo | systemtest/src/main/java/io/strimzi/systemtest/utils/StUtils.java:211-215 | The object's members are `port`, `tls`, `protocol` and `auth`, in that order, holding the port, whether it is 9093, the protocol and the auth. |
| ServiceDiscovery.ExpectedServiceDiscoveryInfo | systemtest/src/main/java/io/strimzi/systemtest/utils/StUtils.java:210-221 | The result is a one-element array holding an object whose members are `port`, `tls`, `protocol` and `auth`, in that order, holding the port, whether it is 9093, the protocol and the auth. |
| ServiceDiscovery.TlsExactlyOnTlsPort | systemtest/src/main/java/io/strimzi/systemtest/utils/StUtils.java:213 | `tls` is true exactly when the port is 9093. |
| ServiceDiscovery.ExpectedServiceDiscoveryInfoPair | systemtest/src/main/java/io/strimzi/systemtest/utils/StUtils.java:223-228 | The result has two objects, each with the members `port`, `tls`, `protocol`, `auth` in that order. The first has port 9092 without TLS and the plain auth. The second has port 9093 with TLS and the TLS auth. Both have protocol `kafka`. |
| Json.EquivalentSymmetric | api/src/main/java/io/strimzi/api/kafka/model/template/KafkaExporterTemplate.java:28 | Equality of decoded JSON values does not depend on the side. |
| Json.MemberOrderIgnored | api/src/main/java/io/strimzi/api/kafka/model/template/KafkaExporterTemplate.java:28 | Two members written in either order make equal objects. |
| Json.ScalarsCompareExactly | api/src/main/java/io/strimzi/api/kafka/model/template/KafkaExporterTemplate.java:28 | A scalar equals exactly itself. |
| Json.EquivalentObjectsShareNames | api/src/main/java/io/strimzi/api/kafka/model/template/KafkaExporterTemplate.java:28 | Equal objects have the same member names. |
| ContainerEnv.CreateContainerEnvVarsFromMap | systemtest/src/main/java/io/strimzi/systemtest/utils/StUtils.java:129-137 | There is one variable per map entry, no name twice, and each variable agrees with the map. Read back as an environment, the variables are the map. |
| Serialisation.SerialiseInOrder | api/src/main/java/io/strimzi/api/kafka/model/template/KafkaExporterTemplate.java:26-27 | The written names are the declared order with the omitted properties left out. |
| Serialisation.SerialiseLookup | api/src/main/java/io/strimzi/api/kafka/model/template/KafkaExporterTemplate.java:25-27 | Each declared property reads back its value, and one without a value is not written. |
| ExporterTemplate.New | api/src/main/java/io/strimzi/api/kafka/model/template/KafkaExporterTemplate.java:32-36 | A new template has no sub-template and no unknown property. |
| ExporterTemplate.SetDeployment | api/src/main/java/io/strimzi/api/kafka/model/template/KafkaExporterTemplate.java:44-46 | The deployment template is set and nothing else changes. |
| ExporterTemplate.SetPod | api/src/main/java/io/strimzi/api/kafka/model/template/KafkaExporterTemplate.java:54-56 | The pod template is set and nothing else changes. |
| ExporterTemplate.SetService | api/src/main/java/io/strimzi/api/kafka/model/template/KafkaExporterTemplate.java:64-66 | The service template is set and nothing else changes. |
| ExporterTemplate.SetContainer | api/src/main/java/io/strimzi/api/kafka/model/template/KafkaExporterTemplate.java:74-76 | The container template is set and nothing else changes. |
| ExporterTemplate.SetAdditionalProperty | api/src/main/java/io/strimzi/api/kafka/model/template/KafkaExporterTemplate.java:83-86 | The name maps to the value, the key set grows by exactly that name, and other keys and the declared fields are unchanged. A declared name gets no special treatment. |
| ExporterTemplate.SerialisedFields | api/src/main/java/io/strimzi/api/kafka/model/template/KafkaExporterTemplate.java:25-27 | The properties are written in the order `deployment`, `pod`, `service`, `container`, each one present exactly when its field is set. |
| ExporterTemplate.Equals | api/src/main/java/io/strimzi/api/kafka/model/template/KafkaExporterTemplate.java:28 | Two templates are equal exactly when each of the four sub-templates is missing on both sides or present on both with equivalent JSON values, and the unknown properties have the same names with equivalent values. Objects inside compare as maps, whatever the order of their members. A template equals itself. |
| ExporterTemplate.EqualsSymmetric | api/src/main/java/io/strimzi/api/kafka/model/template/KafkaExporterTemplate.java:28 | Equality does not depend on the side it is asked from. |
| ExporterTemplate.EqualsIgnoresMemberOrder | api/src/main/java/io/strimzi/api/kafka/model/template/KafkaExporterTemplate.java:28 | An unknown property whose object value lists the same members in another order leaves the templates equal. |
| ExporterTemplate.NewWritesNothing | api/src/main/java/io/strimzi/api/kafka/model/template/KafkaExporterTemplate.java:25-36 | A new template writes no declared property. |
| ExporterTemplate.SetterOverwrites | api/src/main/java/io/strimzi/api/kafka/model/template/KafkaExporterTemplate.java:44-76 | For each field, the second of two setter calls is the one that stays. |
| ExporterTemplate.SetPodKeepsOtherFields | api/src/main/java/io/strimzi/api/kafka/model/template/KafkaExporterTemplate.java:54-56 | Setting the pod template changes the written form only under `pod`. |
| ExporterTemplate.AdditionalPropertyOverwrites | api/src/main/java/io/strimzi/api/kafka/model/template/KafkaExporterTemplate.java:83-86 | A later value for the same name replaces the earlier one, and puts of different names commute. |
| ExporterTemplate.AdditionalPropertyDoesNotShadow | api/src/main/java/io/strimzi/api/kafka/model/template/KafkaExporterTemplate.java:83-86 | An unknown property called `deployment` leaves the written declared properties unchanged. |
| JmxOptions.New | api/src/main/java/io/strimzi/api/kafka/model/KafkaJmxOptions.java:25-26 | New options have no authentication and no unknown property. |
| JmxOptions.SetAuthentication | api/src/main/java/io/strimzi/api/kafka/model/KafkaJmxOptions.java:35-37 | The authentication is set and the unknown properties are unchanged. |
| JmxOptions.SetAdditionalProperty | api/src/main/java/io/strimzi/api/kafka/model/KafkaJmxOptions.java:44-46 | The name maps to the value, the key set grows by exactly that name, and other keys and the authentication are unchanged. |
| JmxOptions.SerialisedFields | api/src/main/java/io/strimzi/api/kafka/model/KafkaJmxOptions.java:29-30 | `authentication` is written exactly when it is set. |
| JmxOptions.Equals | api/src/main/java/io/strimzi/api/kafka/model/KafkaJmxOptions.java:22 | Two options objects are equal exactly when the authentication is missing on both sides or present on both with equivalent JSON values, and the unknown properties have the same names with equivalent values. Objects compare whatever the order of their members. Options equal themselves. |
| JmxOptions.EqualsSymmetric | api/src/main/java/io/strimzi/api/kafka/model/KafkaJmxOptions.java:22 | Equality does not depend on the side it is asked from. |
| JmxOptions.EqualsIgnoresMemberOrder | api/src/main/java/io/strimzi/api/kafka/model/KafkaJmxOptions.java:22 | An authentication object with its members in another order leaves the options equal. |
| JmxOptions.AdditionalPropertyOverwrites | api/src/main/java/io/strimzi/api/kafka/model/KafkaJmxOptions.java:44-46 | A later value for the same name replaces the earlier one. An unknown property called `authentication` does not change the written declared property. |
| MirrorMaker2Status.New | api/src/main/java/io/strimzi/api/kafka/model/status/KafkaMirrorMaker2Status.java:33 | A new status has an empty connector list, not a missing one. |
| MirrorMaker2Status.SetConnectors | api/src/main/java/io/strimzi/api/kafka/model/status/KafkaMirrorMaker2Status.java:37-43 | The getter returns exactly the list that was set, null included, and the base fields are unchanged. |
| MirrorMaker2Status.ConnectorsProperty | api/src/main/java/io/strimzi/api/kafka/model/status/KafkaMirrorMaker2Status.java:35-36 | `connectors` is written exactly when the list is present and nonempty, as an array of the connector documents in order. |
| MirrorMaker2Status.SerialisedFields | api/src/main/java/io/strimzi/api/kafka/model/status/KafkaMirrorMaker2Status.java:26-27 | `conditions`, `observedGeneration` and `url` are written in that order, each when set, followed by `connectors` under its own rule. |
| MirrorMaker2Status.Equals | api/src/main/java/io/strimzi/api/kafka/model/status/KafkaMirrorMaker2Status.java:28 | Two statuses are equal exactly when their base statuses are equal and the connector lists are missing on both sides or present on both with the same length and, position by position, equivalent documents, whose members may come in any order. A status equals itself. |
| MirrorMaker2Status.BaseEquals | api/src/main/java/io/strimzi/api/kafka/model/status/KafkaMirrorMaker2Status.java:28 | Two base statuses are equal exactly when the condition lists are missing on both sides or present on both with the same length and equivalent conditions position by position, and the observed generation and URL are the same, and the unknown properties have the same names with equivalent values. A base status equals itself. |
| MirrorMaker2Status.SetAdditionalProperty | api/src/main/java/io/strimzi/api/kafka/model/status/KafkaMirrorMaker2Status.java:28-30 | The inherited `setAdditionalProperty` is a plain put into the base status's bag. The name maps to the value, the key set grows by exactly that name, other keys keep their values, and the declared fields and the connectors are unchanged. |
| MirrorMaker2Status.EqualsComparesUnknownProperties | api/src/main/java/io/strimzi/api/kafka/model/status/KafkaMirrorMaker2Status.java:28-30 | Through `callSuper`, two statuses that differ only in one unknown property's value are equal exactly when those values are. |
| MirrorMaker2Status.EqualsIgnoresUnknownMemberOrder | api/src/main/java/io/strimzi/api/kafka/model/status/KafkaMirrorMaker2Status.java:28-30 | An unknown status property whose object value lists the same members in another order leaves the statuses equal. |
| MirrorMaker2Status.AdditionalPropertyOverwrites | api/src/main/java/io/strimzi/api/kafka/model/status/KafkaMirrorMaker2Status.java:28-30 | A later value for the same unknown name replaces the earlier one. An unknown property called `connectors` leaves the written properties unchanged. |
| MirrorMaker2Status.EqualsSymmetric | api/src/main/java/io/strimzi/api/kafka/model/status/KafkaMirrorMaker2Status.java:28 | Equality does not depend on the side it is asked from. |
| MirrorMaker2Status.EqualsIgnoresMemberOrder | api/src/main/java/io/strimzi/api/kafka/model/status/KafkaMirrorMaker2Status.java:28 | A connector document listing the same members in another order leaves the statuses equal. |
| MirrorMaker2Status.StatusEquals | api/src/main/java/io/strimzi/api/kafka/model/status/KafkaMirrorMaker2Status.java:28-30 | Equality also compares the kind of status, so a MirrorMaker 2 status never equals a plain Connect status. Two MirrorMaker 2 statuses compare by `Equals`, and every status equals itself. |
| MirrorMaker2Status.NewOmitsConnectors | api/src/main/java/io/strimzi/api/kafka/model/status/KafkaMirrorMaker2Status.java:33-36 | A new status writes no `connectors` property. |
| MirrorMaker2Status.ConnectorsWrittenAsGiven | api/src/main/java/io/strimzi/api/kafka/model/status/KafkaMirrorMaker2Status.java:35-43 | A nonempty connector list is written as given: the same documents, unchanged and in order. |
| MirrorMaker2Status.SetConnectorsOverwrites | api/src/main/java/io/strimzi/api/kafka/model/status/KafkaMirrorMaker2Status.java:41-43 | The second of two `setConnectors` calls is the one that stays. |

## Left out

- ImageReference.ChangeOrgAndTag: requires an image without line terminators. With one, Java's `.` and `$` (which also matches before a final line terminator) behave differently; a reference never contains one.
- ImageMap.ChangeOrgAndTagInImageMap: requires that the images in the map and the configured registry, organisation and tag contain no `$` or `\`. `appendReplacement` reads those as group references and escapes in the replacement, and image references never contain them. The text between tokens is copied as it is and may hold them. The text must also contain no U+0085, U+2028 or U+2029, which `\s` does not cover but `.` refuses.
- ImageMap.ChangeImage: falls back to the identity for an image with a line terminator. The scan never produces such an image, which `MapScan.SegmentsWellFormed` proves.
- PropertiesText.GetLinesWithoutCommentsAndEmptyLines: its own contract states only a length bound. Its content is stated by `GetLinesShape` and `GetLinesKeepsEveryLine`.
- `Environment` reads are a parameter, `ImageConfig`, because they come from process environment variables.
- Java `null` strings are not modelled; every string argument is a value.
- `waitForReconciliation`, `waitForRollingUpdateTimeout`, `checkCologForUsedVariable` and `checkLogForJSONFormat` are left out: they poll a cluster and read its logs.
- `isAllowedOnCurrentK8sVersion` is left out: it queries the cluster and compares floating-point numbers.
- `loadProperties`, `getPropertiesFromJson` and `configMap2Properties` are left out: they delegate to `java.util.Properties.load`, a JSONPath engine and a Kubernetes `ConfigMap`.
- Decoding JSON into the three classes is left out, as is the round trip of unknown properties through Jackson: both are Jackson's behaviour, not code in these classes.
- The Sundrio builders, Lombok's `hashCode` and `toString`, and `Serializable` are left out. They are generated and state no behaviour of their own.
- There is no conflict error between a declared field and an unknown property of the same name. `setAdditionalProperty` is a plain map put, so a name equal to a declared field is stored in the extension bag like any other.
- The order of the map's entries in `createContainerEnvVarsFromMap` is not modelled. It is the map's iteration order, which depends on the map the caller passes, so the method picks the entries in an order it does not choose. Its contract speaks only of contents, which do not depend on that order.
- The base classes `Status` and `KafkaConnectStatus` are not part of this model. Their three declared fields are taken with `NON_NULL` omission, `observedGeneration` is an optional integer, and their bag of unknown properties is a map with the same plain `put` as the other two classes.
- Monotonicity of `observedGeneration` is left out: the operator that writes statuses enforces it, not these classes.
- The sub-templates, the JMX authentication and the status conditions are opaque JSON values, because their classes lie outside this model.
- Connector documents are modelled as member sequences in the order they were read. Their equality ignores that order, as `Map.equals` does.
- Json.Value has no floating-point variant: a JSON number with a fraction or an exponent inside an opaque value (a sub-template, the authentication, a condition, a connector document) cannot be represented. Only integers, strings, booleans, null, arrays and objects are modelled.
- Json.Equivalent: assumes objects without repeated member names, as every decoded map is; for such objects it is `AbstractMap.equals`.
