/** Text as lines: Python's `splitlines`, `join`, and `strip`. */
module Lines {
  import opened Seqs
  import Texts

  /** The characters that end a line for `splitlines`. */
  predicate EndsLine(c: char) {
    '\n' <= c <= '\r' || '\U{1C}' <= c <= '\U{1E}' || c == '\U{85}' || c == '\U{2028}' || c == '\U{2029}'
  }

  /** Where the line after the one that ends at k begins: a carriage return and a newline end one line together. */
  function NextLine(s: string, k: nat): (n: nat)
    requires k < |s|
    ensures k < n <= |s|
  {
    if s[k] == '\r' && k + 1 < |s| && s[k + 1] == '\n' then k + 2 else k + 1
  }

  /** Every piece between line ends; a final line end starts no line. */
  function SplitLines(s: string): seq<string>
    decreases |s|
  {
    if s == [] then []
    else
      var k := Skip(s, EndsLine);
      if k == |s| then [s] else [s[..k]] + SplitLines(s[NextLine(s, k)..])
  }

  function Join(lines: seq<string>): string {
    if lines == [] then []
    else if |lines| == 1 then lines[0]
    else lines[0] + "\n" + Join(lines[1..])
  }

  /** `strip("\n")` */
  function StripNewlines(s: string): string {
    StripEnd(StripStart(s))
  }

  function StripStart(s: string): string {
    if s != [] && s[0] == '\n' then StripStart(s[1..]) else s
  }

  function StripEnd(s: string): string {
    if s != [] && s[|s| - 1] == '\n' then StripEnd(s[..|s| - 1]) else s
  }

  /** Python counts the four information separators as space too. */
  predicate IsSpace(c: char) {
    Texts.IsWhite(c) || '\U{1C}' <= c <= '\U{1F}'
  }

  /** `not s.strip()` */
  predicate Blank(s: string) {
    forall i :: 0 <= i < |s| ==> IsSpace(s[i])
  }

  ghost predicate OneLine(s: string) {
    forall i :: 0 <= i < |s| ==> !EndsLine(s[i])
  }

  /** Text whose lines are ended by newlines and nothing else. */
  ghost predicate NewlinesOnly(s: string) {
    forall i :: 0 <= i < |s| ==> EndsLine(s[i]) ==> s[i] == '\n'
  }

  /** Text that neither starts nor ends with a newline. */
  ghost predicate Trimmed(s: string) {
    s != [] ==> s[0] != '\n' && s[|s| - 1] != '\n'
  }

  // ----- splitting and joining

  lemma SplitOne(line: string)
    requires OneLine(line)
    ensures SplitLines(line) == if line == [] then [] else [line]
  {
    SkipIs(line, EndsLine, |line|);
  }

  lemma SplitFirst(line: string, rest: string)
    requires OneLine(line)
    ensures SplitLines(line + "\n" + rest) == [line] + SplitLines(rest)
  {
    var s := line + "\n" + rest;
    SkipIs(s, EndsLine, |line|);
    assert s[..|line|] == line && s[|line| + 1..] == rest;
  }

  /** The first line of text that holds a newline. */
  lemma FirstLine(s: string) returns (head: string, tail: string)
    requires s != [] && s[|s| - 1] != '\n' && !OneLine(s) && NewlinesOnly(s)
    ensures OneLine(head) && s == head + "\n" + tail && tail != [] && tail[|tail| - 1] == s[|s| - 1] && NewlinesOnly(tail)
    ensures SplitLines(s) == [head] + SplitLines(tail)
  {
    hide Skip, EndsLine, NextLine, SplitLines;
    var k := Skip(s, EndsLine);
    assert k < |s| && s[k] == '\n';
    head, tail := s[..k], s[k + 1..];
    assert s == head + "\n" + tail;
    SplitFirst(head, tail);
  }

  lemma Regroup(head: string, tail: string, b: string)
    ensures (head + "\n" + tail) + "\n" + b == head + "\n" + (tail + "\n" + b)
  {
  }

  /** A newline separates whatever stands before it from whatever stands after. */
  lemma {:induction false} SplitConcat(a: string, b: string)
    requires a != [] && a[|a| - 1] != '\n' && NewlinesOnly(a)
    ensures SplitLines(a + "\n" + b) == SplitLines(a) + SplitLines(b)
    decreases |a|
  {
    hide *;
    if OneLine(a) {
      SplitOne(a);
      SplitFirst(a, b);
    } else {
      var head, tail := FirstLine(a);
      SplitConcat(tail, b);
      Regroup(head, tail, b);
      SplitFirst(head, tail + "\n" + b);
      assert [head] + (SplitLines(tail) + SplitLines(b)) == ([head] + SplitLines(tail)) + SplitLines(b);
    }
  }

  lemma {:induction false} SplitJoin(lines: seq<string>)
    requires lines != [] && lines[|lines| - 1] != [] && forall i :: 0 <= i < |lines| ==> OneLine(lines[i])
    ensures SplitLines(Join(lines)) == lines
  {
    if |lines| == 1 {
      SplitOne(lines[0]);
    } else {
      SplitJoin(lines[1..]);
      SplitFirst(lines[0], Join(lines[1..]));
    }
  }

  lemma {:induction false} JoinSplit(s: string)
    requires s != [] && s[|s| - 1] != '\n' && NewlinesOnly(s)
    ensures Join(SplitLines(s)) == s && SplitLines(s) != []
    decreases |s|
  {
    if OneLine(s) {
      SplitOne(s);
    } else {
      var head, tail := FirstLine(s);
      JoinSplit(tail);
      assert ([head] + SplitLines(tail))[1..] == SplitLines(tail);
    }
  }

  lemma {:induction false} JoinConcat(a: seq<string>, b: seq<string>)
    requires a != [] && b != []
    ensures Join(a + b) == Join(a) + "\n" + Join(b)
  {
    if |a| == 1 {
      assert (a + b)[1..] == b;
    } else {
      JoinConcat(a[1..], b);
      assert (a + b)[1..] == a[1..] + b;
      assert a[0] + "\n" + (Join(a[1..]) + "\n" + Join(b)) == (a[0] + "\n" + Join(a[1..])) + "\n" + Join(b);
    }
  }

  lemma NewlinesConcat(a: string, b: string)
    requires NewlinesOnly(a) && NewlinesOnly(b)
    ensures NewlinesOnly(a + b)
  {
  }

  /** Joined lines are separated by newlines only. */
  lemma {:induction false} JoinNewlines(lines: seq<string>)
    requires forall i :: 0 <= i < |lines| ==> OneLine(lines[i])
    ensures NewlinesOnly(Join(lines))
  {
    if |lines| == 1 {
      assert OneLine(lines[0]);
    } else if lines != [] {
      JoinNewlines(lines[1..]);
      NewlinesConcat(lines[0], "\n");
      NewlinesConcat(lines[0] + "\n", Join(lines[1..]));
    }
  }

  // ----- stripping

  lemma StripIsIdle(s: string)
    requires Trimmed(s)
    ensures StripNewlines(s) == s
  {
  }

  /** Newlines around trimmed text come off. */
  lemma StripAround(s: string)
    requires Trimmed(s) && s != []
    ensures StripNewlines("\n" + s) == s && StripNewlines("\n" + s + "\n") == s
  {
    var t := s + "\n";
    assert t[..|s|] == s && StripEnd(t) == s;
    assert ("\n" + s)[1..] == s && StripStart("\n" + s) == s;
    assert ("\n" + t)[1..] == t && StripStart("\n" + t) == t;
    assert "\n" + s + "\n" == "\n" + t;
  }

  function DropFirstEmpty(lines: seq<string>): seq<string> {
    if lines != [] && lines[0] == [] then DropFirstEmpty(lines[1..]) else lines
  }

  function DropLastEmpty(lines: seq<string>): seq<string> {
    if lines != [] && lines[|lines| - 1] == [] then DropLastEmpty(lines[..|lines| - 1]) else lines
  }

  lemma JoinStep(lines: seq<string>)
    requires lines != []
    ensures lines[0] == [] && |lines| > 1 ==> StripStart(Join(lines)) == StripStart(Join(lines[1..]))
    ensures lines[0] != [] ==> Join(lines) != [] && Join(lines)[0] == lines[0][0]
  {
    if lines[0] == [] && |lines| > 1 {
      assert Join(lines) == "\n" + Join(lines[1..]);
      assert Join(lines)[1..] == Join(lines[1..]);
    }
  }

  lemma {:induction false} StripStartLines(lines: seq<string>)
    requires forall i :: 0 <= i < |lines| ==> OneLine(lines[i])
    ensures StripStart(Join(lines)) == Join(DropFirstEmpty(lines))
  {
    if lines != [] {
      JoinStep(lines);
      if lines[0] == [] {
        StripStartLines(lines[1..]);
      }
    }
  }

  lemma {:induction false} StripEndLines(lines: seq<string>)
    requires forall i :: 0 <= i < |lines| ==> OneLine(lines[i])
    ensures StripEnd(Join(lines)) == Join(DropLastEmpty(lines))
  {
    if lines != [] {
      var before, last := lines[..|lines| - 1], lines[|lines| - 1];
      if before != [] {
        JoinConcat(before, [last]);
        assert before + [last] == lines;
      }
      if last == [] {
        StripEndLines(before);
        if before != [] {
          assert Join(lines) == Join(before) + "\n";
          assert Join(lines)[..|Join(lines)| - 1] == Join(before);
        }
      } else {
        assert Join(lines)[|Join(lines)| - 1] == last[|last| - 1];
      }
    }
  }

  lemma {:induction false} DropFirstIsSuffix(lines: seq<string>)
    ensures var r := DropFirstEmpty(lines);
            && |r| <= |lines| && r == lines[|lines| - |r|..] && (r != [] ==> r[0] != [])
  {
    if lines != [] && lines[0] == [] {
      DropFirstIsSuffix(lines[1..]);
    }
  }

  lemma {:induction false} DropLastIsPrefix(lines: seq<string>)
    ensures var r := DropLastEmpty(lines);
            && |r| <= |lines| && r == lines[..|r|] && (r != [] ==> r[|r| - 1] != [])
  {
    if lines != [] && lines[|lines| - 1] == [] {
      DropLastIsPrefix(lines[..|lines| - 1]);
    }
  }

  /** Stripping joined lines keeps a run of them, from a line that is not empty to one that is not. */
  lemma StripJoined(lines: seq<string>) returns (i: nat, j: nat)
    requires forall k :: 0 <= k < |lines| ==> OneLine(lines[k])
    ensures i <= j <= |lines|
    ensures StripNewlines(Join(lines)) == Join(lines[i..j])
    ensures i < j ==> lines[i] != [] && lines[j - 1] != []
  {
    var first := DropFirstEmpty(lines);
    DropFirstIsSuffix(lines);
    i := |lines| - |first|;
    StripStartLines(lines);
    forall k | 0 <= k < |first| ensures OneLine(first[k]) {
      assert first[k] == lines[i + k];
    }
    StripEndLines(first);
    DropLastIsPrefix(first);
    j := i + |DropLastEmpty(first)|;
    assert lines[i..j] == first[..j - i];
    if i < j {
      assert lines[i] == first[0] && lines[j - 1] == first[j - i - 1];
    }
  }

  // ----- what stripping takes off, and which lines it keeps

  ghost predicate AllNewlines(s: string) {
    forall i :: 0 <= i < |s| ==> s[i] == '\n'
  }

  lemma {:induction false} StripStartMeans(s: string) returns (a: string)
    ensures s == a + StripStart(s) && AllNewlines(a)
    ensures StripStart(s) != [] ==> StripStart(s)[0] != '\n'
  {
    a := "";
    if s != [] && s[0] == '\n' {
      var x := StripStartMeans(s[1..]);
      a := "\n" + x;
      assert s == [s[0]] + s[1..];
    }
  }

  lemma {:induction false} StripEndMeans(s: string) returns (z: string)
    ensures s == StripEnd(s) + z && AllNewlines(z) && StripEnd(s) <= s
    ensures StripEnd(s) != [] ==> StripEnd(s)[|StripEnd(s)| - 1] != '\n'
  {
    z := "";
    if s != [] && s[|s| - 1] == '\n' {
      var x := StripEndMeans(s[..|s| - 1]);
      z := x + "\n";
      assert s == s[..|s| - 1] + [s[|s| - 1]];
    }
  }

  /** Newlines come off both ends and nothing else does. */
  lemma StripMeans(s: string) returns (a: string, z: string)
    ensures s == a + StripNewlines(s) + z && AllNewlines(a) && AllNewlines(z) && Trimmed(StripNewlines(s))
  {
    hide StripStart, StripEnd;
    a := StripStartMeans(s);
    z := StripEndMeans(StripStart(s));
    assert s == a + (StripNewlines(s) + z);
  }

  predicate IsNewline(c: char) {
    c == '\n'
  }

  /** The lines of a text, at newlines alone, that are not empty. */
  function Kept(s: string): seq<string>
    decreases |s|
  {
    if s == [] then []
    else
      var k := Skip(s, IsNewline);
      (if k == 0 then [] else [s[..k]]) + (if k < |s| then Kept(s[k + 1..]) else [])
  }

  lemma KeptOne(line: string)
    requires '\n' !in line
    ensures Kept(line) == if line == "" then [] else [line]
  {
    NewlineFree(line, "");
    assert line + "" == line;
  }

  lemma NewlineFree(line: string, rest: string)
    requires '\n' !in line && (rest == "" || rest[0] == '\n')
    ensures Skip(line + rest, IsNewline) == |line| && (line + rest)[..|line|] == line
  {
    var s := line + rest;
    forall i | 0 <= i < |line| ensures !IsNewline(s[i]) {
      assert s[i] == line[i] && line[i] in line;
    }
    SkipIs(s, IsNewline, |line|);
  }

  lemma KeptFirst(line: string, rest: string)
    requires '\n' !in line
    ensures Kept(line + "\n" + rest) == (if line == "" then [] else [line]) + Kept(rest)
  {
    var s := line + ("\n" + rest);
    NewlineFree(line, "\n" + rest);
    assert s == line + "\n" + rest && s[|line| + 1..] == rest;
  }

  lemma FirstNewline(s: string) returns (line: string, rest: string)
    requires '\n' in s
    ensures '\n' !in line && s == line + "\n" + rest
  {
    var k := Skip(s, IsNewline);
    line, rest := s[..k], s[k + 1..];
    assert forall i :: 0 <= i < k ==> !IsNewline(s[i]);
  }

  /** A newline between two texts separates their lines. */
  lemma {:induction false} KeptConcat(a: string, b: string)
    ensures Kept(a + "\n" + b) == Kept(a) + Kept(b)
    decreases |a|
  {
    hide *;
    if '\n' !in a {
      KeptOne(a);
      KeptFirst(a, b);
    } else {
      var line, rest := FirstNewline(a);
      KeptConcat(rest, b);
      KeptFirst(line, rest);
      KeptFirst(line, rest + "\n" + b);
      Regroup(line, rest, b);
    }
  }

  lemma {:induction false} KeptNewlines(a: string)
    requires AllNewlines(a)
    ensures Kept(a) == []
  {
    if a != [] {
      KeptNewlines(a[1..]);
      assert a[0] == '\n';
    }
  }

  lemma {:induction false} KeptAfter(a: string, s: string)
    requires AllNewlines(a)
    ensures Kept(a + s) == Kept(s)
  {
    hide Kept;
    if a == "" {
      assert a + s == s;
    } else {
      KeptAfter(a[1..], s);
      KeptAfterOne(a[1..] + s);
      assert a + s == "\n" + (a[1..] + s);
    }
  }

  lemma KeptAfterOne(s: string)
    ensures Kept("\n" + s) == Kept(s)
  {
    hide Kept;
    KeptFirst("", s);
    assert "" + "\n" + s == "\n" + s;
  }

  /** Where neither side of a joint is a newline, the two lines there become one. */
  lemma {:induction false} KeptJoined(a: string, b: string)
    requires a != "" && a[|a| - 1] != '\n' && b != "" && b[0] != '\n'
    ensures |Kept(a + b)| == |Kept(a)| + |Kept(b)| - 1
    decreases |a|
  {
    hide Kept;
    if '\n' in a {
      var line, rest := FirstNewline(a);
      assert rest != "" && rest[|rest| - 1] == a[|a| - 1] by {
        assert a[|line|] == '\n';
      }
      KeptJoined(rest, b);
      KeptFirst(line, rest);
      KeptFirst(line, rest + b);
      assert a + b == line + "\n" + (rest + b);
    } else if '\n' in b {
      var line, rest := FirstNewline(b);
      KeptOne(a);
      KeptFirst(line, rest);
      KeptFirst(a + line, rest);
      assert a + b == a + line + "\n" + rest;
    } else {
      KeptOne(a);
      KeptOne(b);
      KeptOne(a + b);
    }
  }

  lemma {:induction false} KeptBefore(s: string, z: string)
    requires AllNewlines(z)
    ensures Kept(s + z) == Kept(s)
  {
    if z == "" {
      assert s + z == s;
    } else {
      KeptConcat(s, z[1..]);
      KeptNewlines(z[1..]);
      assert s + z == s + "\n" + z[1..];
    }
  }

  lemma KeptStripped(s: string)
    ensures Kept(StripNewlines(s)) == Kept(s)
  {
    hide *;
    var a, z := StripMeans(s);
    KeptAfter(a, StripNewlines(s) + z);
    KeptBefore(StripNewlines(s), z);
    assert a + StripNewlines(s) + z == a + (StripNewlines(s) + z);
  }

  // ----- what the lines of a text are

  /** The line ends of `splitlines`: one character of ten, or a carriage return with its newline. */
  ghost predicate IsLineEnd(s: string) {
    s == "\r\n" || (|s| == 1 && s[0] as int in {10, 11, 12, 13, 28, 29, 30, 133, 8232, 8233})
  }

  lemma EndsLineMeans(c: char)
    ensures EndsLine(c) <==> c as int in {10, 11, 12, 13, 28, 29, 30, 133, 8232, 8233}
  {
  }

  /** Lines with the line ends between and after them. */
  function Interleaved(lines: seq<string>, ends: seq<string>): string
    requires |ends| <= |lines|
  {
    if lines == [] then ""
    else if ends == [] then lines[0] + Interleaved(lines[1..], [])
    else lines[0] + ends[0] + Interleaved(lines[1..], ends[1..])
  }

  /** Every line but perhaps the last is ended; one that is not ended is not empty; no newline is torn from its return. */
  ghost predicate AreEnds(lines: seq<string>, ends: seq<string>) {
    && |ends| <= |lines| <= |ends| + 1
    && (|lines| == |ends| + 1 ==> lines[|ends|] != "")
    && (forall i :: 0 <= i < |ends| ==> IsLineEnd(ends[i]))
    && (forall i :: 0 <= i < |ends| - 1 ==> !(ends[i] == "\r" && lines[i + 1] == "" && ends[i + 1] == "\n"))
  }

  lemma {:induction false} NoLineEnds(s: string)
    ensures forall i :: 0 <= i < |SplitLines(s)| ==> OneLine(SplitLines(s)[i])
    decreases |s|
  {
    if s != [] {
      var k := Skip(s, EndsLine);
      if k < |s| {
        NoLineEnds(s[NextLine(s, k)..]);
      }
    }
  }

  lemma EndAt(s: string, k: nat)
    requires k < |s| && EndsLine(s[k])
    ensures var e := s[k..NextLine(s, k)]; IsLineEnd(e) && s == s[..k] + e + s[NextLine(s, k)..]
    ensures s[k..NextLine(s, k)] == "\r" ==> s[NextLine(s, k)..] == "" || s[NextLine(s, k)..][0] != '\n'
  {
    EndsLineMeans(s[k]);
    var n := NextLine(s, k);
    if n == k + 2 {
      assert s[k..n] == [s[k], s[k + 1]];
    } else {
      assert s[k..n] == [s[k]];
    }
  }

  /** The lines of a text hold no line end, and the text is its lines with line ends between and after them. */
  lemma {:induction false} LinesOfText(s: string) returns (ends: seq<string>)
    ensures AreEnds(SplitLines(s), ends) && s == Interleaved(SplitLines(s), ends)
    ensures forall i :: 0 <= i < |SplitLines(s)| ==> OneLine(SplitLines(s)[i])
    decreases |s|
  {
    hide EndsLine, NextLine, IsLineEnd;
    NoLineEnds(s);
    ends := [];
    if s != [] {
      var k := Skip(s, EndsLine);
      if k == |s| {
        assert [s][1..] == [];
      } else {
        var n := NextLine(s, k);
        var more := LinesOfText(s[n..]);
        ends := [s[k..n]] + more;
        EndAt(s, k);
        NotTorn(s[k..n], s[n..], more);
        EndsGrow(s[..k], s[k..n], SplitLines(s[n..]), more);
      }
    }
  }

  lemma NotTorn(e: string, rest: string, more: seq<string>)
    requires AreEnds(SplitLines(rest), more) && rest == Interleaved(SplitLines(rest), more)
    requires e == "\r" ==> rest == "" || rest[0] != '\n'
    ensures more != [] && e == "\r" && SplitLines(rest)[0] == "" ==> more[0] != "\n"
  {
    hide SplitLines, EndsLine, IsLineEnd;
    var lines := SplitLines(rest);
    if more != [] && lines[0] == "" {
      assert rest == more[0] + Interleaved(lines[1..], more[1..]);
    }
  }

  lemma EndsGrow(line: string, e: string, lines: seq<string>, more: seq<string>)
    requires IsLineEnd(e) && AreEnds(lines, more)
    requires more != [] && e == "\r" && lines[0] == "" ==> more[0] != "\n"
    ensures AreEnds([line] + lines, [e] + more)
    ensures Interleaved([line] + lines, [e] + more) == line + e + Interleaved(lines, more)
  {
    hide IsLineEnd;
    assert ([line] + lines)[1..] == lines && ([e] + more)[1..] == more;
  }
}
