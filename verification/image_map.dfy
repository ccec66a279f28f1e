/** Rewriting of every image inside a `version=image` map text
    (`StUtils.changeOrgAndTagInImageMap`): the scan of `MapScan` with
    `ChangeOrgAndTag` as the image rewriting. */
module ImageMap {
  import opened Strings
  import opened ImageReference
  import opened MapScan

  /** `ChangeOrgAndTag` as an image rewriting. Images of a map text without
      stray line terminators never contain one (`SegmentsWellFormed`), so the
      fallback branch is never taken there. */
  function ChangeImage(cfg: ImageConfig): (rewrite: string -> string)
    ensures forall image :: NoLineTerminators(image) ==> rewrite(image) == ChangeOrgAndTag(cfg, image)
  {
    image => if NoLineTerminators(image) then ChangeOrgAndTag(cfg, image) else image
  }

  /** Neither `$` nor `\`: `Matcher.appendReplacement` would read them as group
      references and escapes in a replacement. The replacement of a token is
      its version (digits and dots), `=`, and a rewritten image made of parts
      of the image and of the configured values, so only those are asked to
      be free of them; the text between tokens is copied as it is. */
  predicate NoReplacementSyntax(s: string) {
    '$' !in s && '\\' !in s
  }

  /** `changeOrgAndTagInImageMap`: every token keeps its version and gets its
      image rewritten by `ChangeOrgAndTag`; everything else is copied. Every
      token image is one `ChangeOrgAndTag` accepts. */
  method ChangeOrgAndTagInImageMap(cfg: ImageConfig, imageMap: string) returns (r: string)
    requires NoOtherLineTerminators(imageMap)
    requires forall k :: 0 <= k < |Segments(imageMap)| && Segments(imageMap)[k].Token? ==>
      NoReplacementSyntax(Segments(imageMap)[k].image)
    requires NoReplacementSyntax(cfg.registry) && NoReplacementSyntax(cfg.org) && NoReplacementSyntax(cfg.tag)
    ensures WellFormedSegments(Segments(imageMap))
    ensures r == Rewritten(ChangeImage(cfg), Segments(imageMap))
  {
    SegmentsWellFormed(imageMap);
    r := ReplaceImages(ChangeImage(cfg), imageMap);
  }

  /** A map text whose images all come back from `ChangeOrgAndTag` unchanged
      is returned as it is. */
  lemma ImageMapUnchangedWhenImagesFixed(cfg: ImageConfig, s: string)
    requires forall k :: 0 <= k < |Segments(s)| && Segments(s)[k].Token? && NoLineTerminators(Segments(s)[k].image) ==>
      ChangeOrgAndTag(cfg, Segments(s)[k].image) == Segments(s)[k].image
    ensures Rewritten(ChangeImage(cfg), Segments(s)) == s
  {
    RewrittenKeepsFixedImages(ChangeImage(cfg), Segments(s));
    FlattenSegments(s);
  }
}
