/** The release step of scripts/changelog.py on the text of CHANGELOG.md. */
module ChangelogRelease {
  import opened Wrappers
  import opened Seqs
  import opened Lines

  const UNRELEASED: string := "## [Unreleased]"
  const RELEASE: string := "## ["

  /** A release heading starts a line (or the text). */
  predicate ReleaseAt(rest: string, i: nat) {
    At(rest, RELEASE, i) && (i == 0 || rest[i - 1] == '\n')
  }

  /** `re.search(r"^## \[", rest, flags=re.M)`: the first release heading, or the end of the text. */
  function NextRelease(rest: string, from: nat): (i: nat)
    requires from <= |rest|
    ensures from <= i <= |rest|
    ensures forall j :: from <= j < i ==> !ReleaseAt(rest, j)
    ensures i < |rest| ==> ReleaseAt(rest, i)
    decreases |rest| - from
  {
    if from == |rest| || ReleaseAt(rest, from) then from else NextRelease(rest, from + 1)
  }

  /** A changelog split at its Unreleased heading and at the first release below it. */
  datatype Split = Split(head: string, leftover: string, tail: string)

  /** None: the file has no Unreleased heading. */
  function SplitChangelog(text: string): Option<Split> {
    var k :- Find(text, UNRELEASED);
    var rest := text[k + |UNRELEASED|..];
    var n := NextRelease(rest, 0);
    Some(Split(text[..k], rest[..n], rest[n..]))
  }

  function Section(version: string, date: string, leftover: string, body: string): string {
    var kept := StripNewlines(leftover);
    "## [" + version + "] - " + date + "\n\n" + (if kept == [] then [] else kept + "\n\n") + body + "\n\n"
  }

  /** The new file: the release's section goes between the Unreleased heading and the older releases. */
  function Released(text: string, version: string, date: string, body: string): Option<string> {
    var s :- SplitChangelog(text);
    Some(s.head + UNRELEASED + "\n\n" + Section(version, date, s.leftover, body) + s.tail)
  }

  lemma SplitIsWhole(text: string)
    ensures var s := SplitChangelog(text);
            s.Some? ==> text == s.value.head + UNRELEASED + (s.value.leftover + s.value.tail)
  {
    hide Find, At, NextRelease;
    FindSpec(text, UNRELEASED);
    if SplitChangelog(text).Some? {
      var k := Find(text, UNRELEASED).value;
      var rest := text[k + |UNRELEASED|..];
      CutAt(text, UNRELEASED, k);
      assert rest == rest[..NextRelease(rest, 0)] + rest[NextRelease(rest, 0)..];
    }
  }

  lemma CutAt(s: string, pat: string, k: nat)
    requires At(s, pat, k)
    ensures k + |pat| <= |s| && s == s[..k] + pat + s[k + |pat|..]
  {
    assert s == s[..k] + s[k..k + |pat|] + s[k + |pat|..];
  }

  lemma FirstRelease(section: string, tail: string)
    requires RELEASE <= section
    ensures NextRelease("\n\n" + section + tail, 0) == 2
  {
    var rest := "\n\n" + section + tail;
    assert rest[2..6] == section[..4] == RELEASE;
    assert At(rest, RELEASE, 2) && ReleaseAt(rest, 2);
    assert rest[0] == '\n' && rest[1] == '\n';
    assert !At(rest, RELEASE, 0) by { if At(rest, RELEASE, 0) { AtElement(rest, RELEASE, 0, 0); } }
    assert !At(rest, RELEASE, 1) by { if At(rest, RELEASE, 1) { AtElement(rest, RELEASE, 1, 0); } }
    assert NextRelease(rest, 2) == 2;
  }

  /** After a release nothing is left under Unreleased: what stood there heads the new section (without its outer blank
      lines), followed by the fragments' text, and everything above and below is untouched. */
  lemma ReleaseEmptiesUnreleased(text: string, version: string, date: string, body: string)
    requires SplitChangelog(text).Some?
    ensures var s := SplitChangelog(text).value;
            && Released(text, version, date, body).Some?
            && SplitChangelog(Released(text, version, date, body).value)
            == Some(Split(s.head, "\n\n", Section(version, date, s.leftover, body) + s.tail))
  {
    hide *;
    var s := SplitChangelog(text).value;
    var section := Section(version, date, s.leftover, body);
    SectionIsRelease(version, date, s.leftover, body);
    ReleasedIs(text, version, date, body);
    SplitReleased(text, section + s.tail);
    FirstRelease(section, s.tail);
    BelowHeading(section, s.tail);
  }

  lemma SectionIsRelease(version: string, date: string, leftover: string, body: string)
    ensures RELEASE <= Section(version, date, leftover, body)
  {
    assert Section(version, date, leftover, body)[..4] == RELEASE;
  }

  lemma ReleasedIs(text: string, version: string, date: string, body: string)
    requires SplitChangelog(text).Some?
    ensures var s := SplitChangelog(text).value;
            Released(text, version, date, body)
            == Some(s.head + UNRELEASED + ("\n\n" + (Section(version, date, s.leftover, body) + s.tail)))
  {
    hide Section, SplitChangelog;
    var s := SplitChangelog(text).value;
    Regroup(s.head + UNRELEASED, "\n\n", Section(version, date, s.leftover, body), s.tail);
  }

  lemma Regroup(a: string, b: string, c: string, d: string)
    ensures a + b + c + d == a + (b + (c + d))
  {
  }

  lemma BelowHeading(section: string, tail: string)
    ensures var rest := "\n\n" + (section + tail);
            && rest == "\n\n" + section + tail && rest[..2] == "\n\n" && rest[2..] == section + tail
  {
  }

  lemma SplitReleased(text: string, below: string)
    requires SplitChangelog(text).Some?
    ensures var s := SplitChangelog(text).value;
            var rest := "\n\n" + below;
            var n := NextRelease(rest, 0);
            SplitChangelog(s.head + UNRELEASED + rest) == Some(Split(s.head, rest[..n], rest[n..]))
  {
    var k := Find(text, UNRELEASED).value;
    var rest := "\n\n" + below;
    FindKept(text, UNRELEASED, k, rest);
    var t := text[..k] + UNRELEASED + rest;
    assert t[k + |UNRELEASED|..] == rest && t[..k] == text[..k];
  }

  /** Releasing again puts the newer section above the older one, which stays as it was. */
  lemma ReleasesStack(text: string, v1: string, d1: string, b1: string, v2: string, d2: string, b2: string)
    requires SplitChangelog(text).Some?
    ensures var s := SplitChangelog(text).value;
            && Released(text, v1, d1, b1).Some?
            && Released(Released(text, v1, d1, b1).value, v2, d2, b2)
            == Some(s.head + UNRELEASED + "\n\n" + Section(v2, d2, "", b2) + (Section(v1, d1, s.leftover, b1) + s.tail))
  {
    ReleaseEmptiesUnreleased(text, v1, d1, b1);
    BlankLeftover(v2, d2, b2);
  }

  lemma BlankLeftover(version: string, date: string, body: string)
    ensures Section(version, date, "\n\n", body) == Section(version, date, "", body)
  {
    assert ("\n\n")[1..] == "\n" && ("\n")[1..] == "";
  }

  // ----- what the new file says

  /** A changelog has an Unreleased heading or cannot be released. */
  lemma ReleasesExactly(text: string, version: string, date: string, body: string)
    ensures Released(text, version, date, body).Some? <==> Contains(text, "## [Unreleased]")
  {
    hide Find, Contains, Section;
    FindDecidesContains(text, "## [Unreleased]");
  }

  /** No line of what stood under Unreleased is a release heading, and the older releases begin with one. */
  ghost predicate IsCut(text: string, s: Split) {
    && text == s.head + "## [Unreleased]" + (s.leftover + s.tail)
    && (forall j :: 0 <= j < |s.head| ==> !At(text, "## [Unreleased]", j))
    && (s.tail != "" ==> "## [" <= s.tail && (s.leftover == "" || s.leftover[|s.leftover| - 1] == '\n'))
    && (forall j: nat :: j < |s.leftover| ==>
          !(At(s.leftover + s.tail, "## [", j) && (j == 0 || (s.leftover + s.tail)[j - 1] == '\n')))
  }

  /** The text is cut at its first Unreleased heading and at the first release heading that starts a line below it. */
  lemma SplitMeans(text: string)
    ensures var s := SplitChangelog(text); s.Some? ==> IsCut(text, s.value)
  {
    hide Find, NextRelease, At;
    FindSpec(text, "## [Unreleased]");
    SplitIsWhole(text);
    if SplitChangelog(text).Some? {
      var s := SplitChangelog(text).value;
      var rest := text[Find(text, UNRELEASED).value + |UNRELEASED|..];
      var n := NextRelease(rest, 0);
      assert rest == s.leftover + s.tail;
      forall j: nat | j < n ensures !(At(rest, "## [", j) && (j == 0 || rest[j - 1] == '\n')) {
        assert !ReleaseAt(rest, j);
      }
      if n < |rest| {
        StartsRelease(rest, n);
      }
    }
  }

  lemma StartsRelease(rest: string, n: nat)
    requires ReleaseAt(rest, n)
    ensures n < |rest| && "## [" <= rest[n..] && (n == 0 || rest[..n][n - 1] == '\n')
  {
    assert rest[n..][..4] == rest[n..n + 4];
  }

  /** The new file: the text above, the Unreleased heading, the line of the release, what stood under Unreleased without
      its outer newlines, the fragments' text, each followed by an empty line, and the older releases. */
  lemma ReleasedReads(text: string, version: string, date: string, body: string) returns (a: string, kept: string, z: string)
    requires SplitChangelog(text).Some?
    ensures var s := SplitChangelog(text).value;
            && s.leftover == a + kept + z && AllNewlines(a) && AllNewlines(z) && Trimmed(kept)
            && Released(text, version, date, body) == Some(
                 s.head + "## [Unreleased]" + "\n\n"
                 + ("## [" + version + "] - " + date + "\n\n"
                    + (if kept == "" then "" else kept + "\n\n")
                    + body + "\n\n")
                 + s.tail)
  {
    hide StripNewlines, SplitChangelog;
    var s := SplitChangelog(text).value;
    a, z := StripMeans(s.leftover);
    kept := StripNewlines(s.leftover);
  }

  function Title(version: string, date: string): string {
    "## [" + version + "] - " + date
  }

  lemma KeptParagraph(a: string, b: string)
    ensures Kept(a + "\n\n" + b) == Kept(a) + Kept(b)
  {
    hide Kept;
    KeptConcat(a, "\n" + b);
    KeptAfter("\n", b);
    assert a + "\n\n" + b == a + "\n" + ("\n" + b);
  }

  lemma KeptSection(version: string, date: string, leftover: string, body: string, tail: string)
    ensures Kept(Section(version, date, leftover, body) + tail)
         == Kept(Title(version, date)) + Kept(leftover) + Kept(body) + Kept(tail)
  {
    hide Kept, StripNewlines;
    var t, kept := Title(version, date), StripNewlines(leftover);
    KeptStripped(leftover);
    KeptParagraph(body, tail);
    var last := body + "\n\n" + tail;
    if kept == "" {
      KeptParagraph(t, last);
      KeptOne("");
      assert Section(version, date, leftover, body) + tail == t + "\n\n" + last;
    } else {
      KeptParagraph(kept, last);
      KeptParagraph(t, kept + "\n\n" + last);
      assert Section(version, date, leftover, body) + tail == t + "\n\n" + (kept + "\n\n" + last);
    }
  }

  /** Line by line: a release adds its title and the fragments' lines, and every other line that is not empty stays, in
      its order, with what stood under Unreleased between the two; exactly when the Unreleased heading ends its line. */
  lemma ReleaseKeepsLines(text: string, version: string, date: string, body: string)
    requires SplitChangelog(text).Some?
    ensures var s := SplitChangelog(text).value;
            var top := Kept(s.head + "## [Unreleased]");
            && Released(text, version, date, body).Some?
            && Kept(Released(text, version, date, body).value)
            == top + (Kept(Title(version, date)) + Kept(s.leftover) + Kept(body) + Kept(s.tail))
            && (Kept(text) == top + (Kept(s.leftover) + Kept(s.tail)) <==>
                s.leftover + s.tail == "" || (s.leftover + s.tail)[0] == '\n')
  {
    hide Kept, SplitChangelog, Section, Title, ReleaseAt, At;
    var s := SplitChangelog(text).value;
    ReleasedIs(text, version, date, body);
    var section := Section(version, date, s.leftover, body) + s.tail;
    KeptParagraph(s.head + UNRELEASED, section);
    assert s.head + UNRELEASED + ("\n\n" + section) == s.head + UNRELEASED + "\n\n" + section;
    KeptSection(version, date, s.leftover, body, s.tail);
    SplitMeans(text);
    var rest := s.leftover + s.tail;
    KeptTwo(s.leftover, s.tail);
    if rest == "" {
      KeptOne("");
      assert text == s.head + UNRELEASED;
    } else if rest[0] == '\n' {
      KeptConcat(s.head + UNRELEASED, rest[1..]);
      KeptAfter("\n", rest[1..]);
      assert rest == "\n" + rest[1..];
      assert text == s.head + UNRELEASED + "\n" + rest[1..];
    } else {
      KeptJoined(s.head + UNRELEASED, rest);
    }
  }

  /** Lines do not run together where the first text ends with a newline, or either is empty. */
  lemma KeptTwo(a: string, b: string)
    requires a == "" || b == "" || a[|a| - 1] == '\n'
    ensures Kept(a + b) == Kept(a) + Kept(b)
  {
    hide Kept;
    KeptOne("");
    if a == "" {
      assert a + b == b;
    } else if b == "" {
      assert a + b == a;
    } else {
      var c := a[..|a| - 1];
      KeptConcat(c, b);
      KeptBefore(c, "\n");
      assert a == c + "\n" && a + b == c + "\n" + b;
    }
  }
}
