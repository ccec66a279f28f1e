/** Small character-level helpers shared by the text-processing modules. */
module Strings {
  import opened Wrappers

  /** Line terminators as `java.util.regex.Pattern` sees them without UNIX_LINES:
      they stop `.` and are where `$` may match early. */
  predicate IsLineTerminator(c: char) {
    c == '\n' || c == '\r' || c == '\U{0085}' || c == '\U{2028}' || c == '\U{2029}'
  }

  predicate NoLineTerminators(s: string) {
    forall i :: 0 <= i < |s| ==> !IsLineTerminator(s[i])
  }

  /** A concatenation is free of line terminators exactly when both parts are. */
  lemma NoLineTerminatorsConcat(a: string, b: string)
    ensures NoLineTerminators(a + b) <==> NoLineTerminators(a) && NoLineTerminators(b)
  {
    if NoLineTerminators(a + b) {
      assert forall i :: 0 <= i < |a| ==> a[i] == (a + b)[i];
      assert forall i :: 0 <= i < |b| ==> b[i] == (a + b)[|a| + i];
    }
  }

  /** Position of the first occurrence of `c` in `s`. */
  function IndexOf(s: string, c: char): (r: Option<nat>)
    ensures r.None? <==> c !in s
    ensures r.Some? ==> r.value < |s| && s[r.value] == c && c !in s[..r.value]
  {
    if |s| == 0 then None
    else if s[0] == c then Some(0)
    else
      match IndexOf(s[1..], c)
      case None => None
      case Some(i) =>
        assert s[1..][..i] == s[1..i + 1];
        Some(i + 1)
  }

  /** The first `c` of `a + ([c] + b)` is the one right after `a` when `a`
      holds none; the pieces around it are `a` and `b`. */
  lemma PrefixCharSuffix(a: string, c: char, b: string)
    requires c !in a
    ensures IndexOf(a + ([c] + b), c) == Some(|a|)
    ensures (a + ([c] + b))[..|a|] == a
    ensures (a + ([c] + b))[|a| + 1..] == b
  {
    var s := a + ([c] + b);
    assert s[|a|] == c;
    assert s[..|a|] == a;
    assert s[|a| + 1..] == b;
  }

  /** Cutting `s` around position `i`. */
  lemma SplitAt(s: string, i: nat)
    requires i < |s|
    ensures s == s[..i] + ([s[i]] + s[i + 1..])
  {
  }

  /** `s` with every occurrence of `c` removed (Java `String.replace(c, "")`). */
  function RemoveAll(s: string, c: char): (r: string)
    ensures c !in r
    ensures |r| <= |s|
    ensures forall x :: x in r <==> x in s && x != c
    ensures c !in s ==> r == s
  {
    if |s| == 0 then []
    else if s[0] == c then RemoveAll(s[1..], c)
    else [s[0]] + RemoveAll(s[1..], c)
  }

  /** `replace` works character by character: removing from a concatenation
      removes from each part. */
  lemma {:induction false} RemoveAllConcat(a: string, b: string, c: char)
    ensures RemoveAll(a + b, c) == RemoveAll(a, c) + RemoveAll(b, c)
    decreases |a|
  {
    if |a| > 0 {
      assert (a + b)[1..] == a[1..] + b;
      RemoveAllConcat(a[1..], b, c);
    } else {
      assert a + b == b;
    }
  }

  /** Removing the only character a string is made of leaves nothing. */
  lemma {:induction false} RemoveAllOfOnly(s: string, c: char)
    requires AllChars(s, c)
    ensures RemoveAll(s, c) == []
    decreases |s|
  {
    if |s| > 0 {
      RemoveAllOfOnly(s[1..], c);
    }
  }

  predicate StartsWithChar(s: string, c: char) {
    |s| > 0 && s[0] == c
  }

  /** Every character of `s` is `c` (vacuously true of the empty string). */
  predicate AllChars(s: string, c: char) {
    forall i :: 0 <= i < |s| ==> s[i] == c
  }
}
