/** The JSONPath that picks an environment variable's value out of a pod
    specification (`StUtils.globalVariableJsonPathBuilder`), and its reading
    back. */
module JsonPath {
  import opened Wrappers
  import opened Strings
  import opened JavaInt

  const Prefix: string := "$.spec.containers["
  const Middle: string := "].env[?(@.name=='"
  const Suffix: string := "')].value"

  /** `globalVariableJsonPathBuilder(containerIndex, envVar)`: the container is
      selected by its index, the variable by a filter on its name. The name is
      spliced in verbatim, quotes included. */
  function GlobalVariableJsonPath(containerIndex: Int32, envVar: string): (path: string)
    ensures |path| == |Prefix| + |IntToString(containerIndex as int)| + |Middle| + |envVar| + |Suffix|
    ensures path[..|Prefix|] == Prefix
    ensures path[|path| - |Suffix|..] == Suffix
  {
    Prefix + (IntToString(containerIndex as int) + (Middle + (envVar + Suffix)))
  }

  /** The two parameters a path was built from. */
  datatype PathParts = PathParts(containerIndex: int, envVar: string)

  /** Reads a path of the shape `GlobalVariableJsonPath` builds: the index is
      the decimal text up to the first `]`, the name whatever sits between the
      filter's opening and the closing suffix. */
  function ParseJsonPath(path: string): (r: Option<PathParts>)
    ensures r.Some? ==> |path| >= |Prefix| + |Suffix| && path[..|Prefix|] == Prefix && path[|path| - |Suffix|..] == Suffix
  {
    if |path| < |Prefix| || path[..|Prefix|] != Prefix then None
    else
      var rest := path[|Prefix|..];
      match IndexOf(rest, ']')
      case None => None
      case Some(j) =>
        match ParseInt(rest[..j])
        case None => None
        case Some(n) =>
          var tail := rest[j..];
          if |tail| < |Middle| + |Suffix| || tail[..|Middle|] != Middle || tail[|tail| - |Suffix|..] != Suffix then None
          else
            assert path[|path| - |Suffix|..] == tail[|tail| - |Suffix|..];
            Some(PathParts(n, tail[|Middle|..|tail| - |Suffix|]))
  }

  /** The index text never holds the `]` that closes it. */
  lemma IndexTextHasNoBracket(i: int)
    ensures ']' !in IntToString(i)
  {

  }

  /** Every built path reads back as the index and the name it was built from,
      whatever the name holds. */
  lemma ParseBuiltPath(containerIndex: Int32, envVar: string)
    ensures ParseJsonPath(GlobalVariableJsonPath(containerIndex, envVar))
      == Some(PathParts(containerIndex as int, envVar))
  {
    var num := IntToString(containerIndex as int);
    var path := GlobalVariableJsonPath(containerIndex, envVar);
    var tail := Middle + (envVar + Suffix);
    var after := Middle[1..] + (envVar + Suffix);
    Halves(Prefix, num + tail);
    assert tail == [']'] + after by {
      assert Middle == [Middle[0]] + Middle[1..];
    }
    IndexTextHasNoBracket(containerIndex as int);
    PrefixCharSuffix(num, ']', after);
    IntToStringRoundTrip(containerIndex as int);
    Halves(num, tail);
    Halves(Middle, envVar + Suffix);
    Halves(Middle + envVar, Suffix);
    assert tail == (Middle + envVar) + Suffix;
    Halves(Middle, envVar);
  }

  /** The two halves of a concatenation. */
  lemma Halves(a: string, b: string)
    ensures (a + b)[..|a|] == a && (a + b)[|a|..] == b
  {
  }

  /** Two paths are equal only when they select the same container and the
      same variable. */
  lemma GlobalVariableJsonPathInjective(i: Int32, e: string, j: Int32, f: string)
    requires GlobalVariableJsonPath(i, e) == GlobalVariableJsonPath(j, f)
    ensures i == j && e == f
  {
    ParseBuiltPath(i, e);
    ParseBuiltPath(j, f);
  }
}
