/** Source files as lists of lines, and the string tests used on them (Go's strings package). */
module SourceText {

  predicate OccursAt(s: string, pat: string, i: nat) {
    i + |pat| <= |s| && s[i..i + |pat|] == pat
  }

  predicate Contains(s: string, pat: string) {
    exists i: nat | i <= |s| :: OccursAt(s, pat, i)
  }

  predicate HasChar(s: string, c: char) {
    exists i | 0 <= i < |s| :: s[i] == c
  }

  /** White space in the sense of Unicode, as Go trims it. */
  predicate IsSpace(c: char) {
    || '\t' <= c <= '\r' || c == ' '
    || c == '\U{0085}' || c == '\U{00A0}' || c == '\U{1680}'
    || '\U{2000}' <= c <= '\U{200A}'
    || c == '\U{2028}' || c == '\U{2029}' || c == '\U{202F}' || c == '\U{205F}' || c == '\U{3000}'
  }

  function TrimLeft(s: string): string {
    if s != "" && IsSpace(s[0]) then TrimLeft(s[1..]) else s
  }

  function TrimRight(s: string): string {
    if s != "" && IsSpace(s[|s| - 1]) then TrimRight(s[..|s| - 1]) else s
  }

  function TrimSpace(s: string): string {
    TrimRight(TrimLeft(s))
  }

  lemma {:induction false} TrimLeftExact(s: string) returns (i: nat)
    ensures i <= |s| && TrimLeft(s) == s[i..] && (forall k | 0 <= k < i :: IsSpace(s[k]))
    ensures i < |s| ==> !IsSpace(s[i])
  {
    i := 0;
    if s != "" && IsSpace(s[0]) {
      var j := TrimLeftExact(s[1..]);
      assert s[1..][j..] == s[j + 1..];
      assert forall k | 0 <= k < j :: s[1..][k] == s[k + 1];
      i := j + 1;
    }
  }

  lemma {:induction false} TrimRightExact(s: string) returns (j: nat)
    ensures j <= |s| && TrimRight(s) == s[..j] && (forall k | j <= k < |s| :: IsSpace(s[k]))
    ensures 0 < j ==> !IsSpace(s[j - 1])
  {
    hide IsSpace;
    j := |s|;
    assert s[..j] == s;
    if s != "" && IsSpace(s[|s| - 1]) {
      var front := s[..|s| - 1];
      j := TrimRightExact(front);
      assert front[..j] == s[..j];
      assert forall k | j <= k < |front| :: s[k] == front[k];
    }
  }

  /** Trimming takes away all white space around a text, and nothing else. */
  lemma TrimExact(s: string) returns (i: nat, j: nat)
    ensures i <= j <= |s| && TrimSpace(s) == s[i..j]
    ensures forall k | 0 <= k < |s| && (k < i || j <= k) :: IsSpace(s[k])
    ensures i < j ==> !IsSpace(s[i]) && !IsSpace(s[j - 1])
  {
    hide IsSpace;
    i := TrimLeftExact(s);
    var t := s[i..];
    var n := TrimRightExact(t);
    j := i + n;
    assert t[..n] == s[i..j];
    assert forall k | n <= k < |t| :: t[k] == s[i + k];
    assert 0 < n ==> t[n - 1] == s[j - 1];
  }

  /** Nothing is trimmed between a leading tab and a visible last character. */
  lemma TrimOneTab(s: string)
    requires s != "" && !IsSpace(s[0]) && !IsSpace(s[|s| - 1])
    ensures TrimSpace("\t" + s) == s
  {
    assert ("\t" + s)[1..] == s;
    assert TrimLeft("\t" + s) == TrimLeft(s) == s;
  }

  lemma ContainsChar(s: string, c: char)
    ensures Contains(s, [c]) <==> HasChar(s, c)
  {
    if i: nat :| i <= |s| && OccursAt(s, [c], i) {
      assert s[i] == s[i..i + 1][0];
    }
    if i :| 0 <= i < |s| && s[i] == c {
      assert OccursAt(s, [c], i);
    }
  }

  lemma HasCharConcat(a: string, b: string, c: char)
    ensures HasChar(a + b, c) <==> HasChar(a, c) || HasChar(b, c)
  {
    if i :| 0 <= i < |a| && a[i] == c {
      assert (a + b)[i] == c;
    }
    if i :| 0 <= i < |b| && b[i] == c {
      assert (a + b)[|a| + i] == c;
    }
  }

  lemma Embedded(a: string, pat: string, b: string)
    ensures Contains(a + pat + b, pat)
  {
    assert OccursAt(a + pat + b, pat, |a|);
  }

  /** If `pat` occurs in `s`, each character of `pat` and the one behind it do, side by side. */
  lemma OccursPair(s: string, pat: string, i: nat, k: nat)
    requires OccursAt(s, pat, i) && k + 1 < |pat|
    ensures s[i + k] == pat[k] && s[i + k + 1] == pat[k + 1]
  {
    assert s[i..i + |pat|][k] == pat[k] && s[i..i + |pat|][k + 1] == pat[k + 1];
  }

  /** The text `pat` cannot occur where character `c` is never followed by `d`. */
  lemma NoPairNoOccurrence(s: string, pat: string, k: nat)
    requires k + 1 < |pat|
    requires forall i | 0 <= i < |s| - 1 :: s[i] == pat[k] ==> s[i + 1] != pat[k + 1]
    ensures !Contains(s, pat)
  {
    if i: nat :| i <= |s| && OccursAt(s, pat, i) {
      OccursPair(s, pat, i, k);
    }
  }

  /** Lines of a text; a text always has at least one line. */
  function SplitLines(text: string): (lines: seq<string>)
    ensures lines != []
  {
    if text == "" then [""]
    else
      var rest := SplitLines(text[1..]);
      if text[0] == '\n' then [""] + rest else [[text[0]] + rest[0]] + rest[1..]
  }

  function JoinLines(lines: seq<string>): string {
    if lines == [] then ""
    else if |lines| == 1 then lines[0]
    else lines[0] + "\n" + JoinLines(lines[1..])
  }

  predicate SingleLines(lines: seq<string>) {
    forall i | 0 <= i < |lines| :: !HasChar(lines[i], '\n')
  }

  lemma {:induction false} JoinSplit(text: string)
    ensures JoinLines(SplitLines(text)) == text
    ensures SingleLines(SplitLines(text))
  {
    hide HasChar, JoinLines;
    if text == "" {
      NoBreakInEmpty();
      JoinOne("");
    } else {
      JoinSplit(text[1..]);
      var rest := SplitLines(text[1..]);
      assert text == [text[0]] + text[1..];
      if text[0] == '\n' {
        NoBreakInEmpty();
        JoinBreak(rest);
      } else {
        HasCharConcat([text[0]], rest[0], '\n');
        OneChar(text[0]);
        JoinChar(text[0], rest);
      }
    }
  }

  lemma NoBreakInEmpty()
    ensures !HasChar("", '\n')
  {
  }

  lemma OneChar(c: char)
    ensures HasChar([c], '\n') <==> c == '\n'
  {
    assert [c][0] == c;
  }

  lemma JoinOne(line: string)
    ensures JoinLines([line]) == line
  {
  }

  /** An empty first line shows as a line break in front. */
  lemma JoinBreak(rest: seq<string>)
    requires rest != []
    ensures JoinLines([""] + rest) == "\n" + JoinLines(rest)
  {
    assert ([""] + rest)[1..] == rest;
  }

  /** A character in front of the first line shows in front of the text. */
  lemma JoinChar(c: char, lines: seq<string>)
    requires lines != []
    ensures JoinLines([[c] + lines[0]] + lines[1..]) == [c] + JoinLines(lines)
  {
    assert ([[c] + lines[0]] + lines[1..])[1..] == lines[1..];
    CharInFront(c, lines[0], "\n", JoinLines(lines[1..]));
  }

  lemma CharInFront(c: char, a: string, b: string, d: string)
    ensures ([c] + a) + b + d == [c] + (a + b + d)
  {
  }

  lemma {:induction false} SplitJoin(lines: seq<string>)
    requires lines != [] && SingleLines(lines)
    ensures SplitLines(JoinLines(lines)) == lines
  {
    if |lines| == 1 {
      SplitOne(lines[0]);
    } else {
      SplitJoin(lines[1..]);
      SplitBreak(lines[0], JoinLines(lines[1..]));
    }
  }

  lemma {:induction false} SplitOne(line: string)
    requires !HasChar(line, '\n')
    ensures SplitLines(line) == [line]
  {
    if line != "" {
      HasCharConcat([line[0]], line[1..], '\n');
      assert line == [line[0]] + line[1..];
      assert line[0] != '\n';
      SplitOne(line[1..]);
    }
  }

  lemma {:induction false} SplitBreak(line: string, rest: string)
    requires !HasChar(line, '\n')
    ensures SplitLines(line + "\n" + rest) == [line] + SplitLines(rest)
  {
    var text := line + "\n" + rest;
    if line == "" {
      assert text[1..] == rest;
    } else {
      HasCharConcat([line[0]], line[1..], '\n');
      assert line == [line[0]] + line[1..];
      assert line[0] != '\n';
      assert text[1..] == line[1..] + "\n" + rest;
      SplitBreak(line[1..], rest);
    }
  }
}
