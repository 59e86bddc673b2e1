/** The Python string operations the harvester relies on: strip, splitlines, split. */
module Text {

  /** str.splitlines boundaries of one character */
  predicate IsBreak(c: char) {
    || c == '\n' || c == '\r' || c == '\U{B}' || c == '\U{C}' || c == '\U{1C}' || c == '\U{1D}' || c == '\U{1E}'
    || c == '\U{85}' || c == '\U{2028}' || c == '\U{2029}'
  }

  /** str.isspace of one character */
  predicate IsSpace(c: char) {
    || IsBreak(c) || c == ' ' || c == '\t' || c == '\U{1F}' || c == '\U{A0}' || c == '\U{1680}'
    || ('\U{2000}' <= c <= '\U{200A}') || c == '\U{202F}' || c == '\U{205F}' || c == '\U{3000}'
  }

  // ---- strip ----

  function StripLeft(s: string): (r: string)
    ensures |r| <= |s| && (r != [] ==> !IsSpace(r[0]))
  {
    if s != [] && IsSpace(s[0]) then StripLeft(s[1..]) else s
  }

  function StripRight(s: string): string {
    if s != [] && IsSpace(s[|s| - 1]) then StripRight(s[..|s| - 1]) else s
  }

  function Strip(s: string): string {
    StripRight(StripLeft(s))
  }

  /** No white space at either end. */
  /** The code points of white space, and of the ends of lines among them. */
  lemma SpacesAre(c: char)
    ensures
      var n := c as int;
      && (IsSpace(c) <==> n in {32, 133, 160, 5760, 8232, 8233, 8239, 8287, 12288} || 9 <= n <= 13 || 28 <= n <= 31
                          || 8192 <= n <= 8202)
      && (IsBreak(c) <==> n in {133, 8232, 8233} || 10 <= n <= 13 || 28 <= n <= 30)
  {
  }

  predicate Trimmed(s: string) {
    s != [] ==> !IsSpace(s[0]) && !IsSpace(s[|s| - 1])
  }

  lemma {:induction false} StripLeftIsSuffix(s: string) returns (i: nat)
    ensures i <= |s| && StripLeft(s) == s[i..]
    ensures StripLeft(s) != [] ==> !IsSpace(StripLeft(s)[0])
  {
    if s != [] && IsSpace(s[0]) {
      var j := StripLeftIsSuffix(s[1..]);
      i := j + 1;
    } else {
      i := 0;
    }
  }

  lemma {:induction false} StripRightIsPrefix(s: string) returns (j: nat)
    ensures j <= |s| && StripRight(s) == s[..j]
    ensures StripRight(s) != [] ==> !IsSpace(StripRight(s)[|StripRight(s)| - 1])
  {
    if s != [] && IsSpace(s[|s| - 1]) {
      j := StripRightIsPrefix(s[..|s| - 1]);
      assert s[..|s| - 1][..j] == s[..j];
    } else {
      j := |s|;
      assert s[..j] == s;
    }
  }

  /** Stripping cuts out a part that is trimmed. */
  lemma StripIsPart(s: string) returns (i: nat, j: nat)
    ensures i <= j <= |s| && Strip(s) == s[i..j] && Trimmed(Strip(s))
  {
    i := StripLeftIsSuffix(s);
    var k := StripRightIsPrefix(s[i..]);
    j := i + k;
    assert s[i..][..k] == s[i..j];
  }

  lemma StripTrimmed(s: string)
    requires Trimmed(s)
    ensures Strip(s) == s
  {
  }

  lemma {:induction false} StripLeftSpace(space: string, s: string)
    requires forall i :: 0 <= i < |space| ==> IsSpace(space[i])
    ensures StripLeft(space + s) == StripLeft(s)
  {
    if space == [] {
      assert space + s == s;
    } else {
      assert (space + s)[1..] == space[1..] + s;
      StripLeftSpace(space[1..], s);
    }
  }

  lemma {:induction false} StripRightSpace(s: string, space: string)
    requires forall i :: 0 <= i < |space| ==> IsSpace(space[i])
    ensures StripRight(s + space) == StripRight(s)
  {
    if space == [] {
      assert s + space == s;
    } else {
      assert (s + space)[..|s + space| - 1] == s + space[..|space| - 1];
      StripRightSpace(s, space[..|space| - 1]);
    }
  }

  /** White space around a trimmed text is what strip removes. */
  lemma StripAround(before: string, s: string, after: string)
    requires Trimmed(s) && s != []
    requires forall i :: 0 <= i < |before| ==> IsSpace(before[i])
    requires forall i :: 0 <= i < |after| ==> IsSpace(after[i])
    ensures Strip(before + s + after) == s
  {
    assert before + s + after == before + (s + after);
    StripLeftSpace(before, s + after);
    assert (s + after)[0] == s[0];
    StripRightSpace(s, after);
  }

  // ---- the separator "===" ----

  const SEP := "==="

  predicate SepAt(s: string, i: nat) {
    i + 3 <= |s| && s[i] == '=' && s[i + 1] == '=' && s[i + 2] == '='
  }

  ghost predicate NoSep(s: string) {
    forall i: nat :: i < |s| ==> !SepAt(s, i)
  }

  /** s.split("==="), with the current piece accumulated in `acc` */
  function SplitSep(s: string, acc: string): seq<string> {
    if SepAt(s, 0) then [acc] + SplitSep(s[3..], [])
    else if s == [] then [acc]
    else SplitSep(s[1..], acc + [s[0]])
  }

  lemma NoSepPart(s: string, i: nat, j: nat)
    requires NoSep(s) && i <= j <= |s|
    ensures NoSep(s[i..j])
  {
    forall k: nat | k < |s[i..j]| ensures !SepAt(s[i..j], k) {
      if SepAt(s[i..j], k) {
        assert SepAt(s, i + k);
      }
    }
  }

  /** Two texts joined by a character that is no part of the separator. */
  lemma NoSepJoined(a: string, c: char, b: string)
    requires NoSep(a) && NoSep(b) && c != '='
    ensures NoSep(a + [c] + b)
  {
    var all := a + [c] + b;
    forall i: nat | i < |all| ensures !SepAt(all, i) {
      assert all[|a|] == c;
      if i + 2 < |a| {
        assert SepAt(all, i) ==> SepAt(a, i);
      } else if i > |a| {
        assert SepAt(all, i) ==> SepAt(b, i - |a| - 1);
      }
    }
  }

  /** No piece contains the separator. */
  lemma {:induction false} PiecesHaveNoSep(s: string, acc: string)
    requires forall i: nat :: i < |acc| ==> !SepAt(acc + s, i)
    ensures forall p :: p in SplitSep(s, acc) ==> NoSep(p)
    decreases |s|
  {
    if SepAt(s, 0) || s == [] {
      forall i: nat | i < |acc| ensures !SepAt(acc, i) {
        if SepAt(acc, i) {
          assert SepAt(acc + s, i);
        }
      }
      if s != [] {
        PiecesHaveNoSep(s[3..], []);
      }
    } else {
      var acc', s' := acc + [s[0]], s[1..];
      assert acc' + s' == acc + s;
      PiecesHaveNoSep(s', acc');
    }
  }

  /** A text without the separator is one piece. */
  lemma {:induction false} OnePiece(s: string, acc: string)
    requires NoSep(s)
    ensures SplitSep(s, acc) == [acc + s]
    decreases |s|
  {
    if s == [] {
      assert acc + s == acc;
    } else {
      NoSepPart(s, 1, |s|);
      assert s[1..|s|] == s[1..];
      assert !SepAt(s, 0);
      OnePiece(s[1..], acc + [s[0]]);
      assert acc + [s[0]] + s[1..] == acc + s;
    }
  }

  /** A text without the separator that does not end in '=' is the first piece. */
  lemma {:induction false} FirstPiece(s: string, rest: string, acc: string)
    requires NoSep(s) && (s != [] ==> s[|s| - 1] != '=')
    ensures SplitSep(s + SEP + rest, acc) == [acc + s] + SplitSep(rest, [])
    decreases |s|
  {
    var all := s + SEP + rest;
    if s == [] {
      assert SepAt(all, 0) && all[3..] == rest && acc + s == acc;
    } else {
      assert all[|s| - 1] == s[|s| - 1];
      assert SepAt(all, 0) ==> SepAt(s, 0);
      assert all[1..] == s[1..] + SEP + rest;
      NoSepPart(s, 1, |s|);
      assert s[1..|s|] == s[1..];
      FirstPiece(s[1..], rest, acc + [s[0]]);
      assert acc + [s[0]] + s[1..] == acc + s;
    }
  }

  // ---- splitlines ----

  predicate NoBreak(s: string) {
    forall i :: 0 <= i < |s| ==> !IsBreak(s[i])
  }

  /** s.splitlines(), with the current line accumulated in `acc` */
  function SplitLines(s: string, acc: string): seq<string> {
    if s == [] then (if acc == [] then [] else [acc])
    else if |s| >= 2 && s[0] == '\r' && s[1] == '\n' then [acc] + SplitLines(s[2..], [])
    else if IsBreak(s[0]) then [acc] + SplitLines(s[1..], [])
    else SplitLines(s[1..], acc + [s[0]])
  }

  lemma {:induction false} LinesClean(s: string, acc: string)
    requires NoBreak(acc) && NoSep(acc + s)
    ensures forall p :: p in SplitLines(s, acc) ==> NoBreak(p) && NoSep(p)
    decreases |s|
  {
    var all := acc + s;
    NoSepPart(all, 0, |acc|);
    assert all[0..|acc|] == acc;
    if s == [] {
    } else if |s| >= 2 && s[0] == '\r' && s[1] == '\n' {
      NoSepPart(all, |acc| + 2, |all|);
      assert all[|acc| + 2..|all|] == [] + s[2..];
      LinesClean(s[2..], []);
    } else if IsBreak(s[0]) {
      NoSepPart(all, |acc| + 1, |all|);
      assert all[|acc| + 1..|all|] == [] + s[1..];
      LinesClean(s[1..], []);
    } else {
      assert acc + [s[0]] + s[1..] == all;
      LinesClean(s[1..], acc + [s[0]]);
    }
  }

  /** A line up to its newline. */
  lemma {:induction false} FirstLine(line: string, rest: string, acc: string)
    requires NoBreak(line)
    ensures SplitLines(line + "\n" + rest, acc) == [acc + line] + SplitLines(rest, [])
    decreases |line|
  {
    var all := line + "\n" + rest;
    if line == [] {
      assert all[0] == '\n' && all[1..] == rest && acc + line == acc;
    } else {
      assert all[0] == line[0] && all[1..] == line[1..] + "\n" + rest;
      FirstLine(line[1..], rest, acc + [line[0]]);
      assert acc + [line[0]] + line[1..] == acc + line;
    }
  }

  /** What ends a line: one break, or the two characters of a carriage return and a line feed. */
  predicate EndsLine(end: string) {
    end == "\r\n" || (|end| == 1 && IsBreak(end[0]))
  }

  lemma {:induction false} LineEnded(line: string, end: string, rest: string, acc: string)
    requires NoBreak(line) && EndsLine(end) && (end == "\r" && rest != [] ==> rest[0] != '\n')
    ensures SplitLines(line + end + rest, acc) == [acc + line] + SplitLines(rest, [])
    decreases |line|
  {
    var all := line + end + rest;
    if line == [] {
      assert all == end + rest && acc + line == acc;
      assert all[|end|..] == rest;
    } else {
      assert all[0] == line[0] && all[1..] == line[1..] + end + rest;
      LineEnded(line[1..], end, rest, acc + [line[0]]);
      assert acc + [line[0]] + line[1..] == acc + line;
    }
  }

  function Ended(lines: seq<string>, end: string): string {
    if lines == [] then "" else lines[0] + end + Ended(lines[1..], end)
  }

  /** Lines that all end alike, in any of these ways, are read back as they are. */
  lemma {:induction false} EndedLines(lines: seq<string>, end: string)
    requires EndsLine(end) && forall i :: 0 <= i < |lines| ==> NoBreak(lines[i])
    ensures SplitLines(Ended(lines, end), []) == lines
  {
    if lines != [] {
      var rest := Ended(lines[1..], end);
      EndedLines(lines[1..], end);
      if rest != [] {
        assert rest[0] == (lines[1] + end)[0];
      }
      LineEnded(lines[0], end, rest, []);
      assert [] + lines[0] == lines[0];
    }
  }

  lemma {:induction false} LastLine(line: string, acc: string)
    requires NoBreak(line) && acc + line != []
    ensures SplitLines(line, acc) == [acc + line]
    decreases |line|
  {
    if line == [] {
      assert acc + line == acc;
    } else {
      assert acc + [line[0]] + line[1..] == acc + line;
      LastLine(line[1..], acc + [line[0]]);
    }
  }

  lemma {:induction false} SomeLines(s: string, acc: string)
    requires acc + s != []
    ensures SplitLines(s, acc) != []
    decreases |s|
  {
    if s == [] {
    } else if |s| >= 2 && s[0] == '\r' && s[1] == '\n' {
    } else if IsBreak(s[0]) {
    } else {
      SomeLines(s[1..], acc + [s[0]]);
    }
  }

  // ---- split("|", n) ----

  predicate NoBar(s: string) {
    forall i :: 0 <= i < |s| ==> s[i] != '|'
  }

  /** At most n cuts, each at the first bar left. */
  function SplitBar(s: string, n: nat, acc: string): seq<string> {
    if n == 0 then [acc + s]
    else if s == [] then [acc]
    else if s[0] == '|' then [acc] + SplitBar(s[1..], n - 1, [])
    else SplitBar(s[1..], n, acc + [s[0]])
  }

  lemma {:induction false} FirstField(field: string, rest: string, n: nat, acc: string)
    requires NoBar(field) && n > 0
    ensures SplitBar(field + "|" + rest, n, acc) == [acc + field] + SplitBar(rest, n - 1, [])
    decreases |field|
  {
    var all := field + "|" + rest;
    if field == [] {
      assert all[0] == '|' && all[1..] == rest && acc + field == acc;
    } else {
      assert all[0] == field[0] && all[1..] == field[1..] + "|" + rest;
      FirstField(field[1..], rest, n, acc + [field[0]]);
      assert acc + [field[0]] + field[1..] == acc + field;
    }
  }

  /** At most n + 1 fields, all parts of the text; a field before a cut has no bar. */
  lemma {:induction false} FieldsClean(s: string, n: nat, acc: string)
    requires NoBar(acc) && NoSep(acc + s) && NoBreak(acc + s)
    ensures 0 < |SplitBar(s, n, acc)| <= n + 1
    ensures forall p :: p in SplitBar(s, n, acc) ==> NoSep(p) && NoBreak(p)
    ensures forall i :: 0 <= i < |SplitBar(s, n, acc)| && i < n ==> NoBar(SplitBar(s, n, acc)[i])
    decreases |s|
  {
    var all := acc + s;
    NoSepPart(all, 0, |acc|);
    assert all[0..|acc|] == acc;
    assert forall i :: 0 <= i < |acc| ==> acc[i] == all[i];
    if n == 0 || s == [] {
    } else if s[0] == '|' {
      NoSepPart(all, |acc| + 1, |all|);
      assert all[|acc| + 1..|all|] == [] + s[1..];
      assert forall i :: 0 <= i < |s[1..]| ==> s[1..][i] == all[|acc| + 1 + i];
      FieldsClean(s[1..], n - 1, []);
    } else {
      assert acc + [s[0]] + s[1..] == all;
      FieldsClean(s[1..], n, acc + [s[0]]);
    }
  }
}
