/** Rewriting of container image references to the registry, organisation and
    tag a test run is configured with (`StUtils.changeOrgAndTag` and the two
    private helpers it uses). The three anchored regular expressions of the
    source are written here as explicit splitters; a lemma per splitter shows
    that it finds exactly the decomposition the pattern describes. */
module ImageReference {
  import opened Wrappers
  import opened Strings

  /** The values the source reads from its environment class: the configured
      registry, organisation and tag, each with the default it falls back to. */
  datatype ImageConfig = ImageConfig(
    registry: string, registryDefault: string,
    org: string, orgDefault: string,
    tag: string, tagDefault: string)

  /* ---------------------------------------------------------------------- */
  /* Choosing one part of the reference                                      */
  /* ---------------------------------------------------------------------- */

  /** `setImageProperties`: the configured value wins whenever it was changed
      from its default; otherwise the part already in the image is kept. */
  function SetImageProperty(current: string, configured: string, default: string): (r: string)
    ensures configured != default ==> r == configured
    ensures configured == default ==> r == current
  {
    if configured != default && current != configured then configured else current
  }

  /* ---------------------------------------------------------------------- */
  /* The Kafka component marker inside a tag                                 */
  /* ---------------------------------------------------------------------- */

  /** Characters of the class `[-|_]` around the word `kafka`. */
  predicate IsSeparator(c: char) {
    c == '-' || c == '|' || c == '_'
  }

  const MarkerLength: nat := 7

  /** `s` holds a `[-|_]kafka[-|_]` marker starting at position `p`. */
  predicate MarkerAt(s: string, p: nat) {
    p + MarkerLength <= |s| && IsSeparator(s[p]) && s[p + 1..p + 6] == "kafka" && IsSeparator(s[p + 6])
  }

  /** Characters of the lazy prefix class `[^-|^_]`: everything except `-`, `|`,
      `^` and `_`. */
  predicate InPrefixClass(c: char) {
    c != '-' && c != '|' && c != '^' && c != '_'
  }

  /** One attempt of the component pattern whose lazy prefix currently ends at
      `p`: take the marker if it starts here, else grow the prefix by one
      character when the class allows it. The trailing `(?<version>.*)$`
      always succeeds on a tag without line terminators. */
  function ComponentMatchFrom(s: string, p: nat): (r: Option<nat>)
    requires p <= |s|
    ensures r.Some? ==> p <= r.value && MarkerAt(s, r.value)
    ensures r.Some? ==> forall x :: p <= x < r.value ==> InPrefixClass(s[x])
    decreases |s| - p
  {
    if MarkerAt(s, p) then Some(p)
    else if p < |s| && InPrefixClass(s[p]) then ComponentMatchFrom(s, p + 1)
    else None
  }

  /** `Matcher.find` of the component pattern: the first start position, from
      `i` on, at which an attempt succeeds. The result is where the `kafka`
      group begins. */
  function FindComponent(s: string, i: nat): (r: Option<nat>)
    requires i <= |s|
    ensures r.Some? ==> MarkerAt(s, r.value)
    decreases |s| - i
  {
    match ComponentMatchFrom(s, i)
    case Some(p) => Some(p)
    case None => if i < |s| then FindComponent(s, i + 1) else None
  }

  /** Reference definition: the leftmost marker in `s`, searching from `from`. */
  function LeftmostMarkerFrom(s: string, from: nat): (r: Option<nat>)
    ensures r.Some? ==> from <= r.value && MarkerAt(s, r.value)
    ensures r.Some? ==> forall q :: from <= q < r.value ==> !MarkerAt(s, q)
    ensures r.None? ==> forall q :: from <= q ==> !MarkerAt(s, q)
    decreases |s| - from
  {
    if from + MarkerLength > |s| then None
    else if MarkerAt(s, from) then Some(from)
    else LeftmostMarkerFrom(s, from + 1)
  }

  function LeftmostMarker(s: string): Option<nat> {
    LeftmostMarkerFrom(s, 0)
  }

  /** Starting anywhere at or before the leftmost marker, the search stops at
      that marker: the lazy prefix cannot step over the separator that begins
      it. */
  lemma {:induction false} FindComponentReachesLeftmost(s: string, i: nat, m: nat)
    requires i <= m <= |s|
    requires LeftmostMarker(s) == Some(m)
    ensures FindComponent(s, i) == Some(m)
    decreases m - i
  {
    match ComponentMatchFrom(s, i)
    case Some(p) =>
    case None =>
      assert i < m;
      FindComponentReachesLeftmost(s, i + 1, m);
  }

  lemma {:induction false} FindComponentNoMarker(s: string, i: nat)
    requires i <= |s|
    requires LeftmostMarker(s).None?
    ensures FindComponent(s, i).None?
    decreases |s| - i
  {
    if i < |s| {
      FindComponentNoMarker(s, i + 1);
    }
  }

  /** The component pattern always matches at the leftmost marker, whatever
      characters come before it. */
  lemma FindComponentIsLeftmostMarker(s: string)
    ensures FindComponent(s, 0) == LeftmostMarker(s)
  {
    match LeftmostMarker(s)
    case Some(m) => FindComponentReachesLeftmost(s, 0, m);
    case None => FindComponentNoMarker(s, 0);
  }

  /* ---------------------------------------------------------------------- */
  /* Replacing the tag                                                       */
  /* ---------------------------------------------------------------------- */

  /** `buildTag`: keep the tag when it already is the configured one or when no
      tag was configured; otherwise use the configured tag, followed by the old
      tag's Kafka component suffix when it has one. */
  function BuildTag(cfg: ImageConfig, currentTag: string): (r: string)
    requires NoLineTerminators(currentTag)
    ensures currentTag == cfg.tag || cfg.tagDefault == cfg.tag ==> r == currentTag
    ensures currentTag != cfg.tag && cfg.tagDefault != cfg.tag ==>
      match LeftmostMarker(currentTag)
      case Some(p) => r == cfg.tag + currentTag[p..]
      case None => r == cfg.tag
  {
    FindComponentIsLeftmostMarker(currentTag);
    if currentTag != cfg.tag && cfg.tagDefault != cfg.tag then
      match FindComponent(currentTag, 0)
      case Some(p) => cfg.tag + currentTag[p..p + MarkerLength] + currentTag[p + MarkerLength..]
      case None => cfg.tag
    else currentTag
  }

  predicate NoSeparators(s: string) {
    forall i :: 0 <= i < |s| ==> !IsSeparator(s[i])
  }

  /** A configured tag without separators is followed, in a rewritten tag, by
      the marker the suffix starts with, so rewriting again changes nothing. */
  lemma BuildTagIdempotent(cfg: ImageConfig, t: string)
    requires NoLineTerminators(t) && NoLineTerminators(cfg.tag)
    requires NoSeparators(cfg.tag)
    ensures NoLineTerminators(BuildTag(cfg, t))
    ensures BuildTag(cfg, BuildTag(cfg, t)) == BuildTag(cfg, t)
  {
    var t' := BuildTag(cfg, t);
    if t != cfg.tag && cfg.tagDefault != cfg.tag {
      match LeftmostMarker(t)
      case None =>
      case Some(p) =>
        var n := |cfg.tag|;
        assert t' == cfg.tag + t[p..];
        assert forall q :: n <= q < |t'| ==> t'[q] == t[p + q - n];
        if t' != cfg.tag {
          assert MarkerAt(t', n) by {
            assert t'[n + 1..n + 6] == t[p + 1..p + 6];
          }
          forall q | 0 <= q < n
            ensures !MarkerAt(t', q)
          {
            assert t'[q] == cfg.tag[q];
          }
          assert LeftmostMarker(t') == Some(n);
          assert cfg.tag + t'[n..] == t';
        }
    }
  }

  /* ---------------------------------------------------------------------- */
  /* Decomposing an image reference                                          */
  /* ---------------------------------------------------------------------- */

  /** The groups of `^(?<registry>[^/]*)/(?<org>[^/]*)/(?<image>[^:]*):(?<tag>.*)$`. */
  datatype FullPath = FullPath(registry: string, org: string, image: string, tag: string)

  /** The groups of `^(?<org>[^/]*)/(?<image>[^:]*):(?<tag>.*)$`. */
  datatype ShortPath = ShortPath(org: string, image: string, tag: string)

  /** `registry/org/image:tag` */
  function RenderFull(p: FullPath): string {
    p.registry + ("/" + (p.org + ("/" + (p.image + (":" + p.tag)))))
  }

  /** `org/image:tag` */
  function RenderShort(q: ShortPath): string {
    q.org + ("/" + (q.image + (":" + q.tag)))
  }

  /** `p` is a way for the full-path pattern to match `s`. */
  predicate IsFullPath(s: string, p: FullPath) {
    && s == RenderFull(p)
    && '/' !in p.registry && '/' !in p.org && ':' !in p.image
  }

  /** `q` is a way for the short pattern to match `s`. */
  predicate IsShortPath(s: string, q: ShortPath) {
    && s == RenderShort(q)
    && '/' !in q.org && ':' !in q.image
  }

  function ParseFullPath(s: string): (r: Option<FullPath>)
    ensures r.Some? ==> IsFullPath(s, r.value)
  {
    match IndexOf(s, '/')
    case None => None
    case Some(i) =>
      var rest := s[i + 1..];
      match IndexOf(rest, '/')
      case None => None
      case Some(j) =>
        var rest' := rest[j + 1..];
        match IndexOf(rest', ':')
        case None => None
        case Some(k) =>
          SplitAt(rest', k);
          SplitAt(rest, j);
          SplitAt(s, i);
          Some(FullPath(s[..i], rest[..j], rest'[..k], rest'[k + 1..]))
  }

  function ParseShortPath(s: string): (r: Option<ShortPath>)
    ensures r.Some? ==> IsShortPath(s, r.value)
  {
    match IndexOf(s, '/')
    case None => None
    case Some(i) =>
      var rest := s[i + 1..];
      match IndexOf(rest, ':')
      case None => None
      case Some(k) =>
        SplitAt(rest, k);
        SplitAt(s, i);
        Some(ShortPath(s[..i], rest[..k], rest[k + 1..]))
  }

  /** Whenever the full-path pattern can match, the splitter finds that very
      decomposition: the match is unique and nothing is missed. */
  lemma ParseFullPathComplete(s: string, p: FullPath)
    requires IsFullPath(s, p)
    ensures ParseFullPath(s) == Some(p)
  {
    var rest' := ":" + p.tag;
    var rest := "/" + (p.image + rest');
    PrefixCharSuffix(p.image, ':', p.tag);
    PrefixCharSuffix(p.org, '/', p.image + rest');
    PrefixCharSuffix(p.registry, '/', p.org + rest);
  }

  lemma ParseShortPathComplete(s: string, q: ShortPath)
    requires IsShortPath(s, q)
    ensures ParseShortPath(s) == Some(q)
  {
    PrefixCharSuffix(q.image, ':', q.tag);
    PrefixCharSuffix(q.org, '/', q.image + (":" + q.tag));
  }

  /* ---------------------------------------------------------------------- */
  /* Rewriting a reference                                                   */
  /* ---------------------------------------------------------------------- */

  /** `changeOrgAndTag`: a `registry/org/image:tag` reference gets each part
      chosen by `SetImageProperty` and its tag rebuilt; an `org/image:tag`
      reference gets the configured registry put in front, its organisation
      chosen and its tag rebuilt; any other string is returned as it is. */
  function ChangeOrgAndTag(cfg: ImageConfig, image: string): (r: string)
    requires NoLineTerminators(image)
  {
    match ParseFullPath(image)
    case Some(p) =>
      RenderFullNoLineTerminators(p);
      var registry := SetImageProperty(p.registry, cfg.registry, cfg.registryDefault);
      var org := SetImageProperty(p.org, cfg.org, cfg.orgDefault);
      RenderFull(FullPath(registry, org, p.image, BuildTag(cfg, p.tag)))
    case None =>
      match ParseShortPath(image)
      case Some(q) =>
        RenderShortNoLineTerminators(q);
        var org := SetImageProperty(q.org, cfg.org, cfg.orgDefault);
        RenderFull(FullPath(cfg.registry, org, q.image, BuildTag(cfg, q.tag)))
      case None => image
  }

  /** A string of neither shape is returned as it is. */
  lemma ChangeOrgAndTagUnmatched(cfg: ImageConfig, s: string)
    requires NoLineTerminators(s)
    requires forall p :: !IsFullPath(s, p)
    requires forall q :: !IsShortPath(s, q)
    ensures ChangeOrgAndTag(cfg, s) == s
  {
  }

  /** A rendered full path is free of line terminators exactly when its parts are. */
  lemma RenderFullNoLineTerminators(p: FullPath)
    ensures NoLineTerminators(RenderFull(p)) <==>
      NoLineTerminators(p.registry) && NoLineTerminators(p.org) &&
      NoLineTerminators(p.image) && NoLineTerminators(p.tag)
  {
    NoLineTerminatorsConcat(":", p.tag);
    NoLineTerminatorsConcat(p.image, ":" + p.tag);
    NoLineTerminatorsConcat("/", p.image + (":" + p.tag));
    NoLineTerminatorsConcat(p.org, "/" + (p.image + (":" + p.tag)));
    NoLineTerminatorsConcat("/", p.org + ("/" + (p.image + (":" + p.tag))));
    NoLineTerminatorsConcat(p.registry, "/" + (p.org + ("/" + (p.image + (":" + p.tag)))));
  }

  lemma RenderShortNoLineTerminators(q: ShortPath)
    ensures NoLineTerminators(RenderShort(q)) <==>
      NoLineTerminators(q.org) && NoLineTerminators(q.image) && NoLineTerminators(q.tag)
  {
    NoLineTerminatorsConcat(":", q.tag);
    NoLineTerminatorsConcat(q.image, ":" + q.tag);
    NoLineTerminatorsConcat("/", q.image + (":" + q.tag));
    NoLineTerminatorsConcat(q.org, "/" + (q.image + (":" + q.tag)));
  }

  /** A `registry/org/image:tag` reference keeps its image name and is rebuilt
      from the chosen registry, organisation and tag. */
  lemma ChangeOrgAndTagFullPath(cfg: ImageConfig, s: string, p: FullPath)
    requires NoLineTerminators(s)
    requires IsFullPath(s, p)
    ensures NoLineTerminators(p.registry) && NoLineTerminators(p.org)
    ensures NoLineTerminators(p.image) && NoLineTerminators(p.tag)
    ensures ChangeOrgAndTag(cfg, s) == RenderFull(FullPath(
      SetImageProperty(p.registry, cfg.registry, cfg.registryDefault),
      SetImageProperty(p.org, cfg.org, cfg.orgDefault),
      p.image,
      BuildTag(cfg, p.tag)))
  {
    ParseFullPathComplete(s, p);
    RenderFullNoLineTerminators(p);
  }

  /** With every configured value equal to its default, a full-path reference
      comes back unchanged. */
  lemma ChangeOrgAndTagDefaultsKeepFullPath(cfg: ImageConfig, s: string, p: FullPath)
    requires NoLineTerminators(s)
    requires IsFullPath(s, p)
    requires cfg.registry == cfg.registryDefault && cfg.org == cfg.orgDefault && cfg.tag == cfg.tagDefault
    ensures ChangeOrgAndTag(cfg, s) == s
  {
    ChangeOrgAndTagFullPath(cfg, s, p);
  }

  /** An `org/image:tag` reference that is not also a full path is prefixed by
      the configured registry, even when that registry is the default. */
  lemma ChangeOrgAndTagShortPath(cfg: ImageConfig, s: string, q: ShortPath)
    requires NoLineTerminators(s)
    requires IsShortPath(s, q)
    requires forall p :: !IsFullPath(s, p)
    ensures NoLineTerminators(q.org) && NoLineTerminators(q.image) && NoLineTerminators(q.tag)
    ensures ChangeOrgAndTag(cfg, s) == RenderFull(FullPath(
      cfg.registry,
      SetImageProperty(q.org, cfg.org, cfg.orgDefault),
      q.image,
      BuildTag(cfg, q.tag)))
    ensures ChangeOrgAndTag(cfg, s)[..|cfg.registry| + 1] == cfg.registry + "/"
  {
    ParseShortPathComplete(s, q);
    match ParseFullPath(s)
    case Some(p) => assert false;
    case None =>
    RenderShortNoLineTerminators(q);
  }

  /** Configured values without `/`, line terminators or tag separators make the
      rewrite idempotent: a reference already rewritten is left alone. */
  lemma ChangeOrgAndTagIdempotent(cfg: ImageConfig, s: string)
    requires NoLineTerminators(s)
    requires '/' !in cfg.registry && '/' !in cfg.org
    requires NoLineTerminators(cfg.registry) && NoLineTerminators(cfg.org) && NoLineTerminators(cfg.tag)
    requires NoSeparators(cfg.tag)
    ensures NoLineTerminators(ChangeOrgAndTag(cfg, s))
    ensures ChangeOrgAndTag(cfg, ChangeOrgAndTag(cfg, s)) == ChangeOrgAndTag(cfg, s)
  {
    match ParseFullPath(s)
    case Some(p) => IdempotentOnFullPath(cfg, s, p);
    case None =>
      match ParseShortPath(s)
      case Some(q) =>
        assert forall p :: !IsFullPath(s, p) by {
          forall p | IsFullPath(s, p) ensures false {
            ParseFullPathComplete(s, p);
          }
        }
        IdempotentOnShortPath(cfg, s, q);
      case None =>
  }

  lemma IdempotentOnFullPath(cfg: ImageConfig, s: string, p: FullPath)
    requires NoLineTerminators(s)
    requires IsFullPath(s, p)
    requires '/' !in cfg.registry && '/' !in cfg.org
    requires NoLineTerminators(cfg.registry) && NoLineTerminators(cfg.org) && NoLineTerminators(cfg.tag)
    requires NoSeparators(cfg.tag)
    ensures NoLineTerminators(ChangeOrgAndTag(cfg, s))
    ensures ChangeOrgAndTag(cfg, ChangeOrgAndTag(cfg, s)) == ChangeOrgAndTag(cfg, s)
  {
    ChangeOrgAndTagFullPath(cfg, s, p);
    BuildTagIdempotent(cfg, p.tag);
    RewrittenIsStable(cfg, FullPath(
      SetImageProperty(p.registry, cfg.registry, cfg.registryDefault),
      SetImageProperty(p.org, cfg.org, cfg.orgDefault),
      p.image,
      BuildTag(cfg, p.tag)));
  }

  lemma IdempotentOnShortPath(cfg: ImageConfig, s: string, q: ShortPath)
    requires NoLineTerminators(s)
    requires IsShortPath(s, q)
    requires forall p :: !IsFullPath(s, p)
    requires '/' !in cfg.registry && '/' !in cfg.org
    requires NoLineTerminators(cfg.registry) && NoLineTerminators(cfg.org) && NoLineTerminators(cfg.tag)
    requires NoSeparators(cfg.tag)
    ensures NoLineTerminators(ChangeOrgAndTag(cfg, s))
    ensures ChangeOrgAndTag(cfg, ChangeOrgAndTag(cfg, s)) == ChangeOrgAndTag(cfg, s)
  {
    ChangeOrgAndTagShortPath(cfg, s, q);
    BuildTagIdempotent(cfg, q.tag);
    RewrittenIsStable(cfg, FullPath(
      cfg.registry,
      SetImageProperty(q.org, cfg.org, cfg.orgDefault),
      q.image,
      BuildTag(cfg, q.tag)));
  }

  /** The second rewrite of an already rewritten full path keeps each part. */
  lemma RewrittenIsStable(cfg: ImageConfig, p': FullPath)
    requires '/' !in p'.registry && '/' !in p'.org && ':' !in p'.image
    requires p'.registry == cfg.registry || cfg.registry == cfg.registryDefault
    requires p'.org == cfg.org || cfg.org == cfg.orgDefault
    requires NoLineTerminators(p'.registry) && NoLineTerminators(p'.org)
    requires NoLineTerminators(p'.image) && NoLineTerminators(p'.tag)
    requires BuildTag(cfg, p'.tag) == p'.tag
    ensures NoLineTerminators(RenderFull(p'))
    ensures ChangeOrgAndTag(cfg, RenderFull(p')) == RenderFull(p')
  {
    RenderFullNoLineTerminators(p');
    ChangeOrgAndTagFullPath(cfg, RenderFull(p'), p');
  }
}
