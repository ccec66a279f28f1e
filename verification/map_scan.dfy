/** Scanning of a `version=image` map text with the pattern
    `(?<version>[0-9.]+)=(?<image>[^\s]*)`, as `Matcher.find`,
    `appendReplacement` and `appendTail` do it. The text is cut into tokens and
    single characters between them; only the image of each token is replaced,
    by any image rewriting. */
module MapScan {
  import opened Strings

  /** Characters of `[0-9.]`. */
  predicate IsVersionChar(c: char) {
    ('0' <= c <= '9') || c == '.'
  }

  /** Characters of Java's `\s`: space, tab, line feed, vertical tab, form feed
      and carriage return. */
  predicate IsWhitespace(c: char) {
    c == ' ' || c == '\t' || c == '\n' || c == '\U{000B}' || c == '\U{000C}' || c == '\r'
  }

  /** Length of the longest prefix of `s` made of version characters. */
  function VersionRun(s: string): (n: nat)
    ensures n <= |s|
  {
    if |s| > 0 && IsVersionChar(s[0]) then 1 + VersionRun(s[1..]) else 0
  }

  /** The version run is made of version characters and is maximal. */
  lemma {:induction false} VersionRunIsMaximal(s: string)
    ensures forall i :: 0 <= i < VersionRun(s) ==> IsVersionChar(s[i])
    ensures VersionRun(s) < |s| ==> !IsVersionChar(s[VersionRun(s)])
  {
    if |s| > 0 && IsVersionChar(s[0]) {
      VersionRunIsMaximal(s[1..]);
      assert forall i :: 1 <= i < |s| ==> s[i] == s[1..][i - 1];
    }
  }

  /** Length of the longest prefix of `s` without whitespace. */
  function ImageRun(s: string): (n: nat)
    ensures n <= |s|
  {
    if |s| > 0 && !IsWhitespace(s[0]) then 1 + ImageRun(s[1..]) else 0
  }

  /** The image run has no whitespace and is maximal. */
  lemma {:induction false} ImageRunIsMaximal(s: string)
    ensures forall i :: 0 <= i < ImageRun(s) ==> !IsWhitespace(s[i])
    ensures ImageRun(s) < |s| ==> IsWhitespace(s[ImageRun(s)])
  {
    if |s| > 0 && !IsWhitespace(s[0]) {
      ImageRunIsMaximal(s[1..]);
      assert forall i :: 1 <= i < |s| ==> s[i] == s[1..][i - 1];
    }
  }

  /** Where a match of the token pattern ends: `eq` is the position of the
      `=` (the length of the version) and `end` the end of the image. */
  datatype Match = NoMatch | Match(eq: nat, end: nat)

  /** A match of the token pattern at the very start of `s`: the greedy
      version run must be followed by `=`, and the image is the greedy
      non-whitespace run after it. */
  function TokenAt(s: string): (m: Match)
    ensures m.Match? ==> 0 < m.eq < m.end <= |s| && s[m.eq] == '='
  {
    MatchAfterVersion(s, VersionRun(s))
  }

  /** The rest of the match once the version run of length `v` is known. */
  function MatchAfterVersion(s: string, v: nat): (m: Match)
    requires v <= |s|
    ensures m.Match? ==> 0 < m.eq < m.end <= |s| && s[m.eq] == '='
  {
    if 0 < v < |s| && s[v] == '=' then Match(v, v + 1 + ImageRun(s[v + 1..]))
    else NoMatch
  }

  /** A match of `[0-9.]+=` can start at the beginning of `s` and reach the
      `=` at position `v`. */
  predicate VersionThenEquals(s: string, v: nat) {
    0 < v < |s| && s[v] == '=' && forall i :: 0 <= i < v ==> IsVersionChar(s[i])
  }

  /** `TokenAt` finds exactly the match the pattern allows at the start of
      `s`: there is one precisely when a version run is followed by `=`, the
      `=` is the one after the version, and the image takes every following
      character up to the first whitespace. */
  lemma TokenAtIsTheMatch(s: string)
    ensures TokenAt(s).Match? <==> exists v: nat :: VersionThenEquals(s, v)
    ensures TokenAt(s).Match? ==> VersionThenEquals(s, TokenAt(s).eq)
    ensures TokenAt(s).Match? ==> forall i :: TokenAt(s).eq < i < TokenAt(s).end ==> !IsWhitespace(s[i])
    ensures TokenAt(s).Match? && TokenAt(s).end < |s| ==> IsWhitespace(s[TokenAt(s).end])
  {
    VersionRunIsMaximal(s);
    var n := VersionRun(s);
    if exists v: nat :: VersionThenEquals(s, v) {
      var v: nat :| VersionThenEquals(s, v);
      assert n == v;
    }
    var m := TokenAt(s);
    if m.Match? {
      var rest := s[m.eq + 1..];
      ImageRunIsMaximal(rest);
      assert forall i :: m.eq < i < m.end ==> s[i] == rest[i - m.eq - 1];
      if m.end < |s| {
        assert s[m.end] == rest[ImageRun(rest)];
      }
      assert VersionThenEquals(s, m.eq);
    }
  }

  /** A piece of the map text: a character copied as it is, or a token. */
  datatype Segment = Verbatim(c: char) | Token(version: string, image: string)

  /** The text an unchanged segment stands for. */
  function SegmentText(seg: Segment): string {
    match seg
    case Verbatim(c) => [c]
    case Token(version, image) => version + "=" + image
  }

  /** A token has a non-empty version of `[0-9.]` characters and an image
      without whitespace or any other line terminator. */
  predicate WellFormedToken(seg: Segment) {
    seg.Token? ==>
      && |seg.version| > 0
      && (forall i :: 0 <= i < |seg.version| ==> IsVersionChar(seg.version[i]))
      && (forall i :: 0 <= i < |seg.image| ==> !IsWhitespace(seg.image[i]))
      && NoLineTerminators(seg.image)
  }

  predicate WellFormedSegments(segs: seq<Segment>) {
    forall k :: 0 <= k < |segs| ==> WellFormedToken(segs[k])
  }

  /** The map text contains none of the line terminators `\s` does not cover. */
  predicate NoOtherLineTerminators(s: string) {
    forall i :: 0 <= i < |s| ==> s[i] != '\U{0085}' && s[i] != '\U{2028}' && s[i] != '\U{2029}'
  }

  /** Reference tokenisation, following `Matcher.find`: at each position either
      a token starts or one character is copied. */
  function Segments(s: string): (segs: seq<Segment>)
    decreases |s|
  {
    if |s| == 0 then []
    else
      match TokenAt(s)
      case Match(v, e) => [Token(s[..v], s[v + 1..e])] + Segments(s[e..])
      case NoMatch => [Verbatim(s[0])] + Segments(s[1..])
  }

  /** The token the pattern finds has the shape the pattern describes. */
  lemma TokenIsWellFormed(s: string, v: nat, e: nat)
    requires NoOtherLineTerminators(s)
    requires TokenAt(s) == Match(v, e)
    ensures WellFormedToken(Token(s[..v], s[v + 1..e]))
    ensures NoOtherLineTerminators(s[e..])
  {
    VersionRunIsMaximal(s);
    ImageRunIsMaximal(s[v + 1..]);
    var image := s[v + 1..e];
    assert forall j :: 0 <= j < |image| ==> image[j] == s[v + 1..][j];
    assert forall j :: 0 <= j < |image| ==> !IsWhitespace(image[j]);
  }

  /** Every token of a text without stray line terminators is well formed:
      its image has none of them, so `ChangeOrgAndTag` accepts it. */
  lemma {:induction false} SegmentsWellFormed(s: string)
    requires NoOtherLineTerminators(s)
    ensures WellFormedSegments(Segments(s))
    decreases |s|
  {
    if |s| > 0 {
      match TokenAt(s)
      case Match(v, e) =>
        TokenIsWellFormed(s, v, e);
        SegmentsWellFormed(s[e..]);
        SegmentsToken(s, v, e);
      case NoMatch =>
        SegmentsWellFormed(s[1..]);
        SegmentsVerbatim(s);
    }
  }

  /** Unfolding `Segments` when a token starts the text. */
  lemma SegmentsToken(s: string, v: nat, e: nat)
    requires |s| > 0 && TokenAt(s) == Match(v, e)
    ensures Segments(s) == [Token(s[..v], s[v + 1..e])] + Segments(s[e..])
    ensures Segments(s)[1..] == Segments(s[e..])
  {
  }

  /** Unfolding `Segments` when the first character is copied. */
  lemma SegmentsVerbatim(s: string)
    requires |s| > 0 && TokenAt(s).NoMatch?
    ensures Segments(s) == [Verbatim(s[0])] + Segments(s[1..])
    ensures Segments(s)[1..] == Segments(s[1..])
  {
  }

  /** The text the segments stand for, nothing rewritten. */
  function Flatten(segs: seq<Segment>): string {
    if |segs| == 0 then [] else SegmentText(segs[0]) + Flatten(segs[1..])
  }

  /** The text with each token's image passed through `rewrite`. */
  function Rewritten(rewrite: string -> string, segs: seq<Segment>): string {
    if |segs| == 0 then []
    else
      var head := match segs[0]
        case Verbatim(c) => [c]
        case Token(version, image) => version + "=" + rewrite(image);
      head + Rewritten(rewrite, segs[1..])
  }

  /** A token at the start of the rest: its replacement comes first. */
  lemma RewrittenTokenStep(rewrite: string -> string, rest: string, v: nat, e: nat)
    requires |rest| > 0 && TokenAt(rest) == Match(v, e)
    ensures Rewritten(rewrite, Segments(rest))
      == rest[..v] + "=" + rewrite(rest[v + 1..e]) + Rewritten(rewrite, Segments(rest[e..]))
  {
    SegmentsToken(rest, v, e);
  }

  /** No token at the start of the rest: its first character comes first. */
  lemma RewrittenVerbatimStep(rewrite: string -> string, rest: string)
    requires |rest| > 0 && TokenAt(rest).NoMatch?
    ensures Rewritten(rewrite, Segments(rest)) == [rest[0]] + Rewritten(rewrite, Segments(rest[1..]))
  {
    SegmentsVerbatim(rest);
  }

  /** The `find` / `appendReplacement` / `appendTail` loop over the text: `r`
      is the output buffer, `pending` the input copied since the last match
      and `rest` the input not yet searched. */
  method ReplaceImages(rewrite: string -> string, imageMap: string) returns (r: string)
    ensures r == Rewritten(rewrite, Segments(imageMap))
  {
    r := [];
    var pending := [];
    var rest := imageMap;
    while |rest| > 0
      invariant r + pending + Rewritten(rewrite, Segments(rest)) == Rewritten(rewrite, Segments(imageMap))
      decreases |rest|
    {
      match TokenAt(rest)
      case Match(v, e) =>
        var replacement := rest[..v] + "=" + rewrite(rest[v + 1..e]);
        RewrittenTokenStep(rewrite, rest, v, e);
        r := r + pending + replacement;
        pending := [];
        rest := rest[e..];
      case NoMatch =>
        RewrittenVerbatimStep(rewrite, rest);
        pending := pending + [rest[0]];
        rest := rest[1..];
    }
    r := r + pending;
  }

  lemma TokenText(s: string, v: nat, e: nat)
    requires v < e <= |s| && s[v] == '='
    ensures s[..v] + "=" + s[v + 1..e] == s[..e]
  {
    assert s[..e] == s[..v] + [s[v]] + s[v + 1..e];
  }

  lemma FlattenTokenStep(s: string, v: nat, e: nat)
    requires |s| > 0 && TokenAt(s) == Match(v, e)
    ensures Flatten(Segments(s)) == s[..e] + Flatten(Segments(s[e..]))
  {
    SegmentsToken(s, v, e);
    TokenText(s, v, e);
  }

  lemma FlattenVerbatimStep(s: string)
    requires |s| > 0 && TokenAt(s).NoMatch?
    ensures Flatten(Segments(s)) == [s[0]] + Flatten(Segments(s[1..]))
  {
    SegmentsVerbatim(s);
  }

  /** The segments account for every character of the text, in order. */
  lemma {:induction false} FlattenSegments(s: string)
    ensures Flatten(Segments(s)) == s
    decreases |s|
  {
    if |s| > 0 {
      match TokenAt(s)
      case Match(v, e) =>
        FlattenTokenStep(s, v, e);
        FlattenSegments(s[e..]);
        assert s == s[..e] + s[e..];
      case NoMatch =>
        FlattenVerbatimStep(s);
        FlattenSegments(s[1..]);
        assert s == [s[0]] + s[1..];
    }
  }

  /** Rewriting differs from copying only inside token images: when
      `rewrite` keeps every image, the rewritten text is the copy. */
  lemma {:induction false} RewrittenKeepsFixedImages(rewrite: string -> string, segs: seq<Segment>)
    requires forall k :: 0 <= k < |segs| && segs[k].Token? ==> rewrite(segs[k].image) == segs[k].image
    ensures Rewritten(rewrite, segs) == Flatten(segs)
  {
    if |segs| > 0 {
      RewrittenKeepsFixedImages(rewrite, segs[1..]);
    }
  }

  /** Without `=` there is no token, so nothing is rewritten. */
  lemma {:induction false} NoEqualsNoToken(rewrite: string -> string, s: string)
    requires '=' !in s
    ensures forall k :: 0 <= k < |Segments(s)| ==> Segments(s)[k].Verbatim?
    ensures Rewritten(rewrite, Segments(s)) == s
    decreases |s|
  {
    if |s| > 0 {
      assert TokenAt(s).NoMatch?;
      NoEqualsNoToken(rewrite, s[1..]);
      assert Segments(s)[1..] == Segments(s[1..]);
      assert s == [s[0]] + s[1..];
    }
  }
}
