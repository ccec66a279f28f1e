/** Reading `key=value` configuration text the way the system tests do
    (`StUtils.getLinesWithoutCommentsAndEmptyLines` and
    `StUtils.stringToProperties`). Java's `String.split` is written out: the
    pieces between separator matches, the trailing empty pieces dropped, and
    the whole input as the single piece when the separator never occurs. */
module PropertiesText {
  import opened Wrappers
  import opened Strings

  /* ---------------------------------------------------------------------- */
  /* Splitting                                                               */
  /* ---------------------------------------------------------------------- */

  /** The pieces of `s` between occurrences of `c`, empty pieces included:
      one more piece than there are occurrences. */
  function SplitOn(s: string, c: char): (pieces: seq<string>)
    ensures |pieces| > 0
  {
    if |s| == 0 then [[]]
    else
      var rest := SplitOn(s[1..], c);
      if s[0] == c then [[]] + rest else [[s[0]] + rest[0]] + rest[1..]
  }

  /** The pieces glued back together with `c` between neighbours. */
  function Join(pieces: seq<string>, c: char): string
    requires |pieces| > 0
  {
    if |pieces| == 1 then pieces[0] else pieces[0] + ([c] + Join(pieces[1..], c))
  }

  /** Putting a character in front of the first piece puts it in front of
      the join. */
  lemma JoinPrepend(x: char, pieces: seq<string>, c: char)
    requires |pieces| > 0
    ensures Join([[x] + pieces[0]] + pieces[1..], c) == [x] + Join(pieces, c)
  {
    var p := [[x] + pieces[0]] + pieces[1..];
    assert p[1..] == pieces[1..];
  }

  /** Joining the pieces gives the text back. */
  lemma {:induction false} JoinSplitOn(s: string, c: char)
    ensures Join(SplitOn(s, c), c) == s
  {
    if |s| > 0 {
      var rest := SplitOn(s[1..], c);
      JoinSplitOn(s[1..], c);
      if s[0] == c {
        assert ([[]] + rest)[1..] == rest;
      } else {
        JoinPrepend(s[0], rest, c);
      }
      assert s == [s[0]] + s[1..];
    }
  }

  /** Every string in `xs` is free of `c`. */
  predicate AllFree(xs: seq<string>, c: char) {
    forall k :: 0 <= k < |xs| ==> c !in xs[k]
  }

  /** No piece contains the separator. */
  lemma {:induction false} SplitOnPiecesFree(s: string, c: char)
    ensures AllFree(SplitOn(s, c), c)
  {
    if |s| > 0 {
      var rest := SplitOn(s[1..], c);
      SplitOnPiecesFree(s[1..], c);
      if s[0] == c {
        assert forall k :: 1 <= k < |rest| + 1 ==> ([[]] + rest)[k] == rest[k - 1];
      } else {
        var p := [[s[0]] + rest[0]] + rest[1..];
        assert forall k :: 1 <= k < |p| ==> p[k] == rest[k];
      }
    }
  }

  /** Splitting a join of pieces without `c` gives the pieces back. */
  lemma {:induction false} SplitOnJoin(pieces: seq<string>, c: char)
    requires |pieces| > 0 && AllFree(pieces, c)
    ensures SplitOn(Join(pieces, c), c) == pieces
    decreases |pieces|, |pieces[0]|
  {
    var head := pieces[0];
    if |head| > 0 {
      var shorter := [head[1..]] + pieces[1..];
      assert shorter[1..] == pieces[1..];
      assert AllFree(shorter, c) by {
        assert forall k :: 1 <= k < |shorter| ==> shorter[k] == pieces[k];
        assert head[0] != c;
      }
      SplitOnJoin(shorter, c);
      var joined := Join(pieces, c);
      assert Join(shorter, c) == joined[1..] by {
        JoinPrepend(head[0], shorter, c);
        assert [head[0]] + shorter[0] == head by {
          assert shorter[0] == head[1..];
          assert [head[0]] + head[1..] == head;
        }
        assert [head] + pieces[1..] == pieces;
      }
      assert joined[0] == head[0] != c;
      assert [head[0]] + head[1..] == head;
    } else if |pieces| > 1 {
      assert AllFree(pieces[1..], c) by {
        assert forall k :: 0 <= k < |pieces| - 1 ==> pieces[1..][k] == pieces[k + 1];
      }
      SplitOnJoin(pieces[1..], c);
      var joined := Join(pieces, c);
      assert joined == [c] + Join(pieces[1..], c);
      assert joined[1..] == Join(pieces[1..], c);
      assert [[]] + pieces[1..] == pieces;
    }
  }

  /** The text before the first `c`, or all of it. */
  function UpTo(s: string, c: char): (r: string)
    ensures c !in r
    ensures r <= s
    ensures |r| < |s| ==> s[|r|] == c
  {
    match IndexOf(s, c)
    case None => s
    case Some(i) => s[..i]
  }

  /** The first piece is the text before the first `c`. */
  lemma {:induction false} SplitOnFirst(s: string, c: char)
    ensures SplitOn(s, c)[0] == UpTo(s, c)
  {
    if |s| > 0 && s[0] != c {
      SplitOnFirst(s[1..], c);
      assert s[1..][..|UpTo(s[1..], c)|] == s[1..|UpTo(s[1..], c)| + 1];
      UpToStep(s, c);
    }
  }

  /** `UpTo` past a first character that is not `c`. */
  lemma UpToStep(s: string, c: char)
    requires |s| > 0 && s[0] != c
    ensures UpTo(s, c) == [s[0]] + UpTo(s[1..], c)
  {
    var r := UpTo(s[1..], c);
    var t := [s[0]] + r;
    assert t <= s by {
      assert forall k :: 1 <= k < |t| ==> t[k] == r[k - 1] == s[1..][k - 1] == s[k];
    }
    assert c !in t;
    if |t| < |s| {
      assert s[|t|] == s[1..][|r|] == c;
      assert IndexOf(s, c) == Some(|t|);
    } else {
      assert c !in s by {
        assert s == t;
      }
    }
  }

  /** The second piece, when `c` occurs: the text between the first and the
      second `c`, or the end. */
  lemma {:induction false} SplitOnSecond(s: string, c: char, i: nat)
    requires IndexOf(s, c) == Some(i)
    ensures |SplitOn(s, c)| >= 2
    ensures SplitOn(s, c)[1] == UpTo(s[i + 1..], c)
  {
    var rest := SplitOn(s[1..], c);
    if s[0] == c {
      assert i == 0;
      SplitOnFirst(s[1..], c);
    } else {
      assert IndexOf(s[1..], c) == Some(i - 1) by {
        assert s[1..][i - 1] == c;
        assert s[1..][..i - 1] == s[1..i];
        assert c !in s[1..i] by {
          assert forall k :: 0 <= k < i - 1 ==> s[1..i][k] == s[..i][k + 1];
        }
      }
      SplitOnSecond(s[1..], c, i - 1);
      assert s[1..][i - 1 + 1..] == s[i + 1..];
    }
  }

  /** Every string in `xs` is empty. */
  predicate AllEmpty(xs: seq<string>) {
    forall k :: 0 <= k < |xs| ==> xs[k] == []
  }

  /** Every piece is empty exactly when the text is made of `c` only. */
  lemma {:induction false} SplitOnAllEmpty(s: string, c: char)
    ensures AllEmpty(SplitOn(s, c)) <==> AllChars(s, c)
  {
    if |s| > 0 {
      var rest := SplitOn(s[1..], c);
      SplitOnAllEmpty(s[1..], c);
      if s[0] == c {
        var p := [[]] + rest;
        assert forall k :: 1 <= k < |p| ==> p[k] == rest[k - 1];
        if AllEmpty(p) {
          assert AllEmpty(rest) by {
            assert forall k :: 0 <= k < |rest| ==> rest[k] == p[k + 1];
          }
          assert forall k :: 1 <= k < |s| ==> s[k] == s[1..][k - 1];
        }
        if AllChars(s, c) {
          assert AllChars(s[1..], c) by {
            assert forall k :: 0 <= k < |s| - 1 ==> s[1..][k] == s[k + 1];
          }
          assert p == SplitOn(s, c);
          assert AllEmpty(p);
        }
      } else {
        assert SplitOn(s, c)[0] != [];
      }
    }
  }

  /** The longest prefix of `xs` that is empty or ends with a non-empty string:
      `split` with limit 0 drops the trailing empty strings. */
  function DropTrailingEmpty(xs: seq<string>): (r: seq<string>)
    ensures |r| <= |xs| && r == xs[..|r|]
    ensures |r| > 0 ==> r[|r| - 1] != []
  {
    if |xs| == 0 then []
    else if xs[|xs| - 1] == [] then DropTrailingEmpty(xs[..|xs| - 1])
    else xs
  }

  /** Only empty strings are dropped. */
  lemma {:induction false} DropTrailingEmptyDropsEmpty(xs: seq<string>)
    ensures forall k :: |DropTrailingEmpty(xs)| <= k < |xs| ==> xs[k] == []
  {
    if |xs| > 0 && xs[|xs| - 1] == [] {
      var init := xs[..|xs| - 1];
      DropTrailingEmptyDropsEmpty(init);
      assert forall k :: 0 <= k < |init| ==> init[k] == xs[k];
    }
  }

  /** `s.split(c)` for a one-character separator. */
  function JavaSplit(s: string, c: char): seq<string> {
    if c !in s then [s] else DropTrailingEmpty(SplitOn(s, c))
  }

  /** No part of `s.split(c)` contains `c`, and the last part is not empty
      unless it is the whole of `s`. */
  lemma JavaSplitParts(s: string, c: char)
    ensures AllFree(JavaSplit(s, c), c)
    ensures c in s && |JavaSplit(s, c)| > 0 ==> JavaSplit(s, c)[|JavaSplit(s, c)| - 1] != []
  {
    SplitOnPiecesFree(s, c);
    var parts := JavaSplit(s, c);
    if c in s {
      assert forall k :: 0 <= k < |parts| ==> parts[k] == SplitOn(s, c)[k];
    }
  }

  /* ---------------------------------------------------------------------- */
  /* Lines                                                                   */
  /* ---------------------------------------------------------------------- */

  /** `s` without one carriage return at its end. */
  function DropCarriageReturn(s: string): (r: string)
    ensures r == s || r + "\r" == s
  {
    if |s| > 0 && s[|s| - 1] == '\r' then s[..|s| - 1] else s
  }

  /** Every piece but the last loses one carriage return at its end: in
      `\r?\n` the carriage return belongs to the separator. */
  function DropCarriageReturns(pieces: seq<string>): (r: seq<string>)
    ensures |r| == |pieces|
  {
    if |pieces| <= 1 then pieces
    else [DropCarriageReturn(pieces[0])] + DropCarriageReturns(pieces[1..])
  }

  /** The pieces between matches of `\r?\n`. */
  function LinePieces(s: string): (pieces: seq<string>)
    ensures |pieces| > 0
  {
    DropCarriageReturns(SplitOn(s, '\n'))
  }

  /** Dropping carriage returns keeps pieces free of a character. */
  lemma {:induction false} DropCarriageReturnsFree(pieces: seq<string>, c: char)
    requires AllFree(pieces, c)
    ensures AllFree(DropCarriageReturns(pieces), c)
  {
    if |pieces| > 1 {
      var rest := pieces[1..];
      assert AllFree(rest, c) by {
        assert forall k :: 0 <= k < |rest| ==> rest[k] == pieces[k + 1];
      }
      DropCarriageReturnsFree(rest, c);
      var r := DropCarriageReturns(pieces);
      assert c !in pieces[0];
      assert forall k :: 1 <= k < |r| ==> r[k] == DropCarriageReturns(rest)[k - 1];
    }
  }

  /** Pieces without carriage returns are left as they are. */
  lemma {:induction false} DropCarriageReturnsNone(pieces: seq<string>)
    requires AllFree(pieces, '\r')
    ensures DropCarriageReturns(pieces) == pieces
  {
    if |pieces| > 1 {
      var rest := pieces[1..];
      assert AllFree(rest, '\r') by {
        assert forall k :: 0 <= k < |rest| ==> rest[k] == pieces[k + 1];
      }
      DropCarriageReturnsNone(rest);
      var p := pieces[0];
      if |p| > 0 {
        assert p[|p| - 1] in p;
      }
    }
  }

  /** No line piece contains a line feed. */
  lemma LinePiecesFree(s: string)
    ensures AllFree(LinePieces(s), '\n')
  {
    SplitOnPiecesFree(s, '\n');
    DropCarriageReturnsFree(SplitOn(s, '\n'), '\n');
  }

  /** Without carriage returns the line pieces are the pieces between line
      feeds, so joining them with line feeds gives the text back. */
  lemma LinePiecesWithoutCarriageReturns(s: string)
    requires '\r' !in s
    ensures LinePieces(s) == SplitOn(s, '\n')
    ensures Join(LinePieces(s), '\n') == s
  {
    JoinSplitOn(s, '\n');
    assert AllFree(SplitOn(s, '\n'), '\r') by {
      JoinedPiecesFree(SplitOn(s, '\n'), '\n', '\r');
    }
    DropCarriageReturnsNone(SplitOn(s, '\n'));
  }

  /** Splitting at a first `c`: the text before it is the first piece. */
  lemma {:induction false} SplitOnAtFirst(a: string, b: string, c: char)
    requires c !in a
    ensures SplitOn(a + [c] + b, c) == [a] + SplitOn(b, c)
    decreases |a|
  {
    var s := a + [c] + b;
    if |a| > 0 {
      assert s[1..] == a[1..] + [c] + b;
      SplitOnAtFirst(a[1..], b, c);
      assert [a[0]] + a[1..] == a;
    } else {
      assert s[1..] == b;
    }
  }

  /** A text without line feeds is one line, even when it holds a carriage
      return: `\r` on its own does not separate lines. */
  lemma LinePiecesOneLine(a: string)
    requires '\n' !in a
    ensures LinePieces(a) == [a]
  {
    SplitOnJoin([a], '\n');
  }

  /** `\r\n` separates lines and neither character stays in the line before
      it. */
  lemma LinePiecesCarriageReturnLineFeed(a: string, b: string)
    requires '\n' !in a
    ensures LinePieces(a + "\r\n" + b) == [a] + LinePieces(b)
  {
    assert a + "\r\n" + b == (a + "\r") + ['\n'] + b;
    SplitOnAtFirst(a + "\r", b, '\n');
    assert (a + "\r")[..|a|] == a;
  }

  /** A line feed alone separates lines as well, and the line before it is
      kept whole when it does not end with a carriage return. */
  lemma LinePiecesLineFeed(a: string, b: string)
    requires '\n' !in a && (a == [] || a[|a| - 1] != '\r')
    ensures LinePieces(a + "\n" + b) == [a] + LinePieces(b)
  {
    assert a + "\n" + b == a + ['\n'] + b;
    SplitOnAtFirst(a, b, '\n');
  }

  /** A character missing from a join is missing from every piece. */
  lemma {:induction false} JoinedPiecesFree(pieces: seq<string>, c: char, d: char)
    requires |pieces| > 0 && d !in Join(pieces, c)
    ensures AllFree(pieces, d)
  {
    if |pieces| > 1 {
      var rest := pieces[1..];
      assert d !in Join(rest, c) by {
        assert Join(pieces, c) == pieces[0] + ([c] + Join(rest, c));
      }
      JoinedPiecesFree(rest, c, d);
      assert forall k :: 1 <= k < |pieces| ==> pieces[k] == rest[k - 1];
    }
  }

  /** `config.split("\\r?\\n")`. */
  function SplitLines(config: string): (lines: seq<string>)
  {
    if '\n' !in config then [config] else DropTrailingEmpty(LinePieces(config))
  }

  /** No line contains a line feed. */
  lemma SplitLinesFree(config: string)
    ensures AllFree(SplitLines(config), '\n')
  {
    LinePiecesFree(config);
    var lines := SplitLines(config);
    if '\n' in config {
      assert forall k :: 0 <= k < |lines| ==> lines[k] == LinePieces(config)[k];
    }
  }

  /** Lines are kept when they are not empty and do not start with `#` once
      their spaces are removed. */
  predicate IsKept(line: string) {
    line != [] && !StartsWithChar(RemoveAll(line, ' '), '#')
  }

  /** The kept lines, in order, with their spaces removed. */
  function CleanLines(lines: seq<string>): seq<string> {
    if |lines| == 0 then []
    else (if IsKept(lines[0]) then [RemoveAll(lines[0], ' ')] else []) + CleanLines(lines[1..])
  }

  /** `getLinesWithoutCommentsAndEmptyLines`. */
  function GetLinesWithoutCommentsAndEmptyLines(config: string): (lines: seq<string>)
    ensures |lines| <= |SplitLines(config)|
  {
    CleanLinesLength(SplitLines(config));
    CleanLines(SplitLines(config))
  }

  lemma {:induction false} CleanLinesLength(lines: seq<string>)
    ensures |CleanLines(lines)| <= |lines|
  {
    if |lines| > 0 {
      CleanLinesLength(lines[1..]);
    }
  }

  /** Cleaning works line by line, so the cleaned lines of a text keep the
      order of its lines: what comes from earlier lines comes first. */
  lemma {:induction false} CleanLinesAppend(a: seq<string>, b: seq<string>)
    ensures CleanLines(a + b) == CleanLines(a) + CleanLines(b)
  {
    if |a| > 0 {
      assert (a + b)[1..] == a[1..] + b;
      CleanLinesAppend(a[1..], b);
    } else {
      assert a + b == b;
    }
  }

  /** A cleaned line is exactly a kept line with its spaces removed. */
  lemma {:induction false} CleanLinesMembers(lines: seq<string>, x: string)
    ensures x in CleanLines(lines) <==> exists k :: 0 <= k < |lines| && IsKept(lines[k]) && x == RemoveAll(lines[k], ' ')
  {
    if |lines| > 0 {
      CleanLinesMembers(lines[1..], x);
      if x in CleanLines(lines[1..]) {
        var k :| 0 <= k < |lines[1..]| && IsKept(lines[1..][k]) && x == RemoveAll(lines[1..][k], ' ');
        assert lines[k + 1] == lines[1..][k];
      }
      if exists k :: 0 <= k < |lines| && IsKept(lines[k]) && x == RemoveAll(lines[k], ' ') {
        var k :| 0 <= k < |lines| && IsKept(lines[k]) && x == RemoveAll(lines[k], ' ');
        if k > 0 {
          assert lines[1..][k - 1] == lines[k];
        }
      }
    }
  }

  /** What the cleaned lines look like: no spaces, no comment mark in front, no
      line feed; and each comes from a kept line of the text. */
  lemma GetLinesShape(config: string, x: string)
    requires x in GetLinesWithoutCommentsAndEmptyLines(config)
    ensures ' ' !in x && '\n' !in x && !StartsWithChar(x, '#')
    ensures exists k :: 0 <= k < |SplitLines(config)| && IsKept(SplitLines(config)[k]) && x == RemoveAll(SplitLines(config)[k], ' ')
  {
    CleanLinesMembers(SplitLines(config), x);
    SplitLinesFree(config);
  }

  /** Every kept line of the text shows up, spaces removed. */
  lemma GetLinesKeepsEveryLine(config: string, k: nat)
    requires k < |SplitLines(config)| && IsKept(SplitLines(config)[k])
    ensures RemoveAll(SplitLines(config)[k], ' ') in GetLinesWithoutCommentsAndEmptyLines(config)
  {
    CleanLinesMembers(SplitLines(config), RemoveAll(SplitLines(config)[k], ' '));
  }

  /** Emptiness is checked before the spaces are removed, so a line made of
      spaces only comes out as an empty line rather than being dropped, both
      inside a text and as a whole text. */
  lemma SpacesOnlyLineKept(line: string)
    requires line != [] && AllChars(line, ' ')
    ensures CleanLines([line]) == [""]
    ensures GetLinesWithoutCommentsAndEmptyLines(line) == [""]
  {
    RemoveAllOfOnly(line, ' ');
    assert CleanLines([line]) == [RemoveAll(line, ' ')] + CleanLines([]);
  }

  /* ---------------------------------------------------------------------- */
  /* Properties                                                              */
  /* ---------------------------------------------------------------------- */

  /** `split[0]` on an empty array: the line is made of `=` only. */
  datatype ParseError = NoKey(line: string)

  /** A key and its value. */
  datatype Entry = Entry(key: string, value: string)

  /** One line of `stringToProperties`: the first piece of `line.split("=")`
      is the key and the second, if there is one, the value. */
  function ParseLine(line: string): Result<Entry, ParseError> {
    var parts := JavaSplit(line, '=');
    if |parts| == 0 then Failure(NoKey(line))
    else Success(Entry(parts[0], if |parts| == 1 then "" else parts[1]))
  }

  /** The line parses and has key `key`. */
  predicate HasKey(line: string, key: string) {
    ParseLine(line).Success? && ParseLine(line).value.key == key
  }

  /** The key read independently of `split`: the text before the first `=`. */
  function KeyOf(line: string): string {
    UpTo(line, '=')
  }

  /** The value read independently of `split`: the text between the first and
      the second `=`, empty when there is no `=`. */
  function ValueOf(line: string): string {
    match IndexOf(line, '=')
    case None => ""
    case Some(i) => UpTo(line[i + 1..], '=')
  }

  /** A line fails exactly when it is non-empty and made of `=` only;
      otherwise the key is the text before the first `=` and the value the
      text between the first and the second. */
  lemma ParseLineReference(line: string)
    ensures ParseLine(line).Failure? <==> line != [] && AllChars(line, '=')
    ensures ParseLine(line).Success? ==> ParseLine(line).value == Entry(KeyOf(line), ValueOf(line))
  {
    match IndexOf(line, '=')
    case None =>
      if line != [] {
        assert line[0] != '=';
      }
    case Some(i) =>
      var pieces := SplitOn(line, '=');
      SplitOnFirst(line, '=');
      SplitOnSecond(line, '=', i);
      SplitOnAllEmpty(line, '=');
      DropTrailingEmptyDropsEmpty(pieces);
      var parts := DropTrailingEmpty(pieces);
      if |parts| == 0 {
        assert AllEmpty(pieces);
      } else {
        assert parts[0] == pieces[0];
        if |parts| == 1 {
          assert pieces[1] == [];
        } else {
          assert parts[1] == pieces[1];
        }
        assert pieces[|parts| - 1] != [];
      }
  }

  /** The value the last line with key `key` gives, if any line does. */
  function LastValue(lines: seq<string>, key: string): Option<string> {
    if |lines| == 0 then None
    else if HasKey(lines[|lines| - 1], key) then Some(ParseLine(lines[|lines| - 1]).value.value)
    else LastValue(lines[..|lines| - 1], key)
  }

  /** Line `i` gives `key` the value `v` and no later line has `key`. */
  ghost predicate IsLastWithKey(lines: seq<string>, key: string, v: string, i: int) {
    && 0 <= i < |lines|
    && ParseLine(lines[i]) == Success(Entry(key, v))
    && forall j :: i < j < |lines| ==> !HasKey(lines[j], key)
  }

  /** `LastValue` finds a line with that key and value, and no later line has
      the key: later lines overwrite earlier ones. */
  lemma {:induction false} LastValueIsLast(lines: seq<string>, key: string)
    requires LastValue(lines, key).Some?
    ensures exists i :: IsLastWithKey(lines, key, LastValue(lines, key).value, i)
  {
    var n := |lines| - 1;
    if !HasKey(lines[n], key) {
      var init := lines[..n];
      var v := LastValue(init, key).value;
      LastValueIsLast(init, key);
      var i :| IsLastWithKey(init, key, v, i);
      assert forall j :: 0 <= j < n ==> init[j] == lines[j];
      assert IsLastWithKey(lines, key, v, i);
    } else {
      assert IsLastWithKey(lines, key, LastValue(lines, key).value, n);
    }
  }

  /** No line with the key means no value for it. */
  lemma {:induction false} LastValueAbsent(lines: seq<string>, key: string)
    requires forall j :: 0 <= j < |lines| ==> !HasKey(lines[j], key)
    ensures LastValue(lines, key).None?
  {
    if |lines| > 0 {
      var init := lines[..|lines| - 1];
      assert forall j :: 0 <= j < |init| ==> init[j] == lines[j];
      LastValueAbsent(init, key);
    }
  }

  /** The table the lines that parse build, later lines overwriting earlier
      ones. */
  ghost function TableOf(lines: seq<string>): map<string, string> {
    if |lines| == 0 then map[]
    else
      var init := TableOf(lines[..|lines| - 1]);
      match ParseLine(lines[|lines| - 1])
      case Success(entry) => init[entry.key := entry.value]
      case Failure(_) => init
  }

  /** The table holds, for each key, the value of the last line with it. */
  lemma {:induction false} TableOfLastValue(lines: seq<string>)
    ensures forall key :: key in TableOf(lines) <==> LastValue(lines, key).Some?
    ensures forall key :: key in TableOf(lines) ==> TableOf(lines)[key] == LastValue(lines, key).value
  {
    if |lines| > 0 {
      TableOfLastValue(lines[..|lines| - 1]);
    }
  }

  /** Line `k` is the first line that has no key: Java throws there. */
  predicate FirstBadLine(lines: seq<string>, k: int) {
    && 0 <= k < |lines|
    && ParseLine(lines[k]).Failure?
    && forall j :: 0 <= j < k ==> ParseLine(lines[j]).Success?
  }

  /** The loop of `stringToProperties` over the cleaned lines: each line is
      parsed in turn and put into the table, so the last line with a key
      decides its value; the first line made of `=` only throws. */
  method PutLines(lines: seq<string>) returns (r: Result<map<string, string>, ParseError>)
    ensures r.Failure? <==> exists k :: 0 <= k < |lines| && ParseLine(lines[k]).Failure?
    ensures r.Failure? ==> r.error.line in lines
    ensures r.Failure? ==> exists k :: FirstBadLine(lines, k) && r.error == NoKey(lines[k])
    ensures r.Success? ==> forall key :: key in r.value <==> LastValue(lines, key).Some?
    ensures r.Success? ==> forall key :: key in r.value ==> r.value[key] == LastValue(lines, key).value
  {
    var result: map<string, string> := map[];
    var i := 0;
    while i < |lines|
      invariant i <= |lines|
      invariant forall k :: 0 <= k < i ==> ParseLine(lines[k]).Success?
      invariant result == TableOf(lines[..i])
    {
      assert lines[..i + 1][..i] == lines[..i];
      match ParseLine(lines[i])
      case Failure(e) =>
        assert FirstBadLine(lines, i);
        return Failure(e);
      case Success(entry) =>
        result := result[entry.key := entry.value];
        i := i + 1;
    }
    assert lines[..i] == lines;
    TableOfLastValue(lines);
    return Success(result);
  }

  /** `stringToProperties`: the cleaned lines of `str` put into a table. */
  method StringToProperties(str: string) returns (r: Result<map<string, string>, ParseError>)
    ensures r.Failure? <==>
      exists k :: 0 <= k < |GetLinesWithoutCommentsAndEmptyLines(str)| &&
        ParseLine(GetLinesWithoutCommentsAndEmptyLines(str)[k]).Failure?
    ensures r.Failure? ==> r.error.line in GetLinesWithoutCommentsAndEmptyLines(str)
    ensures r.Failure? ==>
      exists k :: FirstBadLine(GetLinesWithoutCommentsAndEmptyLines(str), k) &&
                  r.error == NoKey(GetLinesWithoutCommentsAndEmptyLines(str)[k])
    ensures r.Success? ==> forall key :: key in r.value <==> LastValue(GetLinesWithoutCommentsAndEmptyLines(str), key).Some?
    ensures r.Success? ==> forall key :: key in r.value ==> r.value[key] == LastValue(GetLinesWithoutCommentsAndEmptyLines(str), key).value
  {
    r := PutLines(GetLinesWithoutCommentsAndEmptyLines(str));
  }
}
