/** What scripts/changelog.py promises of a release section: it reads back as exactly the bodies that went in. */
module ChangelogRoundTrip {
  import opened Wrappers
  import opened Lines
  import opened Changelog
  import Seqs

  // ----- section headings read as their sections

  ghost predicate IsTitled(s: string) {
    s != [] && IsUpper(s[0]) && forall i :: 0 < i < |s| ==> IsLower(s[i])
  }

  lemma {:induction false} TitledIsIdle(s: string)
    requires IsTitled(s)
    ensures Title(s) == s
  {
    if |s| == 1 {
      assert s[..0] == [];
    } else {
      TitledIsIdle(s[..|s| - 1]);
      assert s == s[..|s| - 1] + [s[|s| - 1]];
    }
  }

  lemma StripsToItself(s: string)
    requires s != [] && !IsSpace(s[0]) && !IsSpace(s[|s| - 1])
    ensures StripRight(StripLeft(" " + s)) == s
  {
    assert (" " + s)[1..] == s && IsSpace((" " + s)[0]);
    assert StripLeft(" " + s) == StripLeft(s) == s;
  }

  lemma LetterIsNoSpace(c: char)
    requires IsUpper(c) || IsLower(c)
    ensures !IsSpace(c) && !EndsLine(c)
  {
  }

  lemma HeadingOfTitled(s: string)
    requires IsTitled(s)
    ensures Heading("### " + s) == Some(s) && OneLine("### " + s)
  {
    var line := "### " + s;
    assert line[..3] == "###" && line[3..] == " " + s && IsSpace(line[3]);
    LetterIsNoSpace(s[0]);
    LetterIsNoSpace(s[|s| - 1]);
    StripsToItself(s);
    TitledIsIdle(s);
    forall i | 0 <= i < |s| ensures !EndsLine(s[i]) {
      LetterIsNoSpace(s[i]);
    }
  }

  lemma SectionsAreTitled(s: string)
    requires s in SECTIONS
    ensures IsTitled(s)
  {
  }

  lemma HeadingOfSection(s: string)
    requires s in SECTIONS
    ensures Heading("### " + s) == Some(s) && OneLine("### " + s)
  {
    SectionsAreTitled(s);
    HeadingOfTitled(s);
  }

  // ----- bodies

  ghost predicate NoHeadings(lines: seq<string>) {
    forall i :: 0 <= i < |lines| ==> Heading(lines[i]).None?
  }

  ghost predicate AllLines(lines: seq<string>) {
    forall i :: 0 <= i < |lines| ==> OneLine(lines[i])
  }

  /** A body as `parse` leaves it: no newline at its edges, no other line end, and no heading inside. */
  ghost predicate IsClean(body: string) {
    Trimmed(body) && NewlinesOnly(body) && NoHeadings(SplitLines(body))
  }

  ghost predicate IsBody(body: string) {
    IsClean(body) && !Blank(body)
  }

  lemma {:induction false} JoinEdges(lines: seq<string>)
    requires lines != [] && lines[0] != [] && lines[|lines| - 1] != []
    ensures var s := Join(lines);
            s != [] && s[0] == lines[0][0] && s[|s| - 1] == lines[|lines| - 1][|lines[|lines| - 1]| - 1]
  {
    if |lines| > 1 {
      JoinLast(lines);
    }
  }

  lemma {:induction false} JoinLast(lines: seq<string>)
    requires lines != [] && lines[|lines| - 1] != []
    ensures var s, last := Join(lines), lines[|lines| - 1]; s != [] && s[|s| - 1] == last[|last| - 1]
  {
    if |lines| > 1 {
      JoinLast(lines[1..]);
    }
  }

  /** Closing a section leaves a clean body. */
  lemma ClosedBodyIsClean(lines: seq<string>)
    requires AllLines(lines) && NoHeadings(lines)
    ensures IsClean(StripNewlines(Join(lines)))
  {
    hide Heading, EndsLine, StripNewlines, SplitLines, Join;
    var i, j := StripJoined(lines);
    var kept := lines[i..j];
    if i < j {
      forall k | 0 <= k < |kept| ensures OneLine(kept[k]) && Heading(kept[k]).None? {
        assert kept[k] == lines[i + k];
      }
      SplitJoin(kept);
      JoinEdges(kept);
      JoinNewlines(kept);
      LineEdges(kept[0]);
      LineEdges(kept[|kept| - 1]);
    } else {
      EmptyIsClean();
    }
  }

  lemma LineEdges(line: string)
    requires OneLine(line) && line != []
    ensures line[0] != '\n' && line[|line| - 1] != '\n'
  {
  }

  lemma EmptyIsClean()
    ensures IsClean("") && Join([]) == ""
  {
  }

  lemma {:induction false} SplitLinesAreLines(s: string)
    ensures AllLines(SplitLines(s))
    decreases |s|
  {
    if s != [] {
      var k := Seqs.Skip(s, EndsLine);
      if k < |s| {
        SplitLinesAreLines(s[NextLine(s, k)..]);
        assert OneLine(s[..k]);
      } else {
        assert OneLine(s);
      }
    }
  }

  ghost predicate CleanEntries(entries: seq<Entry>) {
    forall i :: 0 <= i < |entries| ==> entries[i].0 in SECTIONS && IsClean(entries[i].1)
  }

  ghost predicate CleanState(st: State) {
    && CleanEntries(st.out)
    && AllLines(st.lines) && NoHeadings(st.lines)
    && (st.section.Some? ==> st.section.value in SECTIONS)
  }

  lemma ClosedIsClean(st: State)
    requires CleanState(st)
    ensures CleanEntries(Closed(st))
  {
    ClosedBodyIsClean(st.lines);
  }

  lemma FedIsClean(st: State, line: string)
    requires CleanState(st) && OneLine(line)
    ensures Feed(st, line).Ok? ==> CleanState(Feed(st, line).value)
  {
    ClosedIsClean(st);
  }

  lemma {:induction false} FedAllIsClean(st: State, lines: seq<string>)
    requires CleanState(st) && AllLines(lines)
    ensures FeedAll(st, lines).Ok? ==> CleanState(FeedAll(st, lines).value)
    decreases |lines|
  {
    if lines != [] {
      assert OneLine(lines[0]);
      FedIsClean(st, lines[0]);
      if Feed(st, lines[0]).Ok? {
        FedAllIsClean(Feed(st, lines[0]).value, lines[1..]);
      }
    }
  }

  /** Every entry of a fragment that parses is a clean body of a known section, and one is not blank. */
  lemma ParsedIsClean(text: string)
    requires Parsed(text).Ok?
    ensures CleanEntries(Parsed(text).value)
    ensures exists i :: 0 <= i < |Parsed(text).value| && !Blank(Parsed(text).value[i].1)
  {
    var lines := SplitLines(text);
    SplitLinesAreLines(text);
    FedAllIsClean(START, lines);
    ClosedIsClean(FeedAll(START, lines).value);
  }

  lemma CleanConcat(a: seq<Entry>, b: seq<Entry>)
    requires CleanEntries(a) && CleanEntries(b)
    requires exists i :: 0 <= i < |b| && !Blank(b[i].1)
    ensures CleanEntries(a + b)
    ensures exists i :: 0 <= i < |a + b| && !Blank((a + b)[i].1)
  {
    hide Blank, IsClean;
    var i :| 0 <= i < |b| && !Blank(b[i].1);
    assert (a + b)[|a| + i] == b[i];
  }

  lemma {:induction false} EntriesAreClean(files: seq<string>)
    requires Entries(files).Ok?
    ensures CleanEntries(Entries(files).value)
    ensures files != [] ==> exists i :: 0 <= i < |Entries(files).value| && !Blank(Entries(files).value[i].1)
  {
    if files != [] {
      EntriesAreClean(files[..|files| - 1]);
      ParsedIsClean(files[|files| - 1]);
      var before, last := Entries(files[..|files| - 1]).value, Parsed(files[|files| - 1]).value;
      CleanConcat(before, last);
    }
  }

  ghost predicate AllBodies(bodies: seq<string>) {
    forall i :: 0 <= i < |bodies| ==> IsBody(bodies[i])
  }

  lemma {:induction false} BodiesAreBodies(entries: seq<Entry>, s: string)
    requires CleanEntries(entries)
    ensures AllBodies(BodiesOf(entries, s))
  {
    if entries != [] {
      var last := entries[|entries| - 1];
      BodiesAreBodies(entries[..|entries| - 1], s);
      StripIsIdle(last.1);
    }
  }

  function AllLinesOf(bodies: seq<string>): seq<string> {
    if bodies == [] then [] else SplitLines(bodies[0]) + AllLinesOf(bodies[1..])
  }

  /** Joined bodies are a body again, and hold every line of each body in order. */
  lemma {:induction false} JoinedBodies(bodies: seq<string>)
    requires bodies != [] && AllBodies(bodies)
    ensures IsBody(Join(bodies)) && SplitLines(Join(bodies)) == AllLinesOf(bodies)
  {
    var b := bodies[0];
    assert IsBody(b) && b != [];
    if |bodies| == 1 {
      assert AllLinesOf(bodies[1..]) == [];
    } else {
      JoinedBodies(bodies[1..]);
      JoinTwo(b, Join(bodies[1..]));
    }
  }

  lemma JoinTwo(a: string, b: string)
    requires IsBody(a) && IsBody(b)
    ensures IsBody(a + "\n" + b) && SplitLines(a + "\n" + b) == SplitLines(a) + SplitLines(b)
  {
    hide SplitLines, Heading, EndsLine, IsSpace;
    assert a != [] && b != [];
    SplitConcat(a, b);
    NewlinesConcat(a, "\n");
    NewlinesConcat(a + "\n", b);
    NotBlankInFront(a, "\n" + b);
    assert a + ("\n" + b) == a + "\n" + b;
  }

  lemma NotBlankInFront(a: string, b: string)
    requires !Blank(a)
    ensures !Blank(a + b)
  {
    hide IsSpace;
    var k :| 0 <= k < |a| && !IsSpace(a[k]);
    assert (a + b)[k] == a[k];
  }

  // ----- what an assembled text reads as

  /** The sections that have bodies, each with its bodies joined, in the order of the sections. */
  function GroupsOf(sections: seq<string>, entries: seq<Entry>): seq<Entry> {
    if sections == [] then []
    else
      var bodies := BodiesOf(entries, sections[0]);
      (if bodies == [] then [] else [(sections[0], Join(bodies))]) + GroupsOf(sections[1..], entries)
  }

  function PartOf(e: Entry): string {
    "### " + e.0 + "\n\n" + e.1
  }

  function Shown(groups: seq<Entry>): string {
    if groups == [] then []
    else if |groups| == 1 then PartOf(groups[0])
    else PartOf(groups[0]) + "\n\n" + Shown(groups[1..])
  }

  lemma {:induction false} PartsAreShown(sections: seq<string>, entries: seq<Entry>)
    ensures |Parts(sections, entries)| == |GroupsOf(sections, entries)|
    ensures forall i :: 0 <= i < |Parts(sections, entries)| ==>
              Parts(sections, entries)[i] == PartOf(GroupsOf(sections, entries)[i])
  {
    if sections != [] {
      PartsAreShown(sections[1..], entries);
    }
  }

  lemma {:induction false} JoinPartsIsShown(parts: seq<string>, groups: seq<Entry>)
    requires |parts| == |groups| && forall i :: 0 <= i < |parts| ==> parts[i] == PartOf(groups[i])
    ensures JoinParts(parts) == Shown(groups)
  {
    if |parts| > 1 {
      JoinPartsIsShown(parts[1..], groups[1..]);
    }
  }

  ghost predicate AllGroups(groups: seq<Entry>) {
    forall i :: 0 <= i < |groups| ==> groups[i].0 in SECTIONS && IsBody(groups[i].1)
  }

  lemma {:induction false} GroupsAreBodies(sections: seq<string>, entries: seq<Entry>)
    requires CleanEntries(entries) && forall i :: 0 <= i < |sections| ==> sections[i] in SECTIONS
    ensures AllGroups(GroupsOf(sections, entries))
  {
    if sections != [] {
      var bodies := BodiesOf(entries, sections[0]);
      GroupsAreBodies(sections[1..], entries);
      BodiesAreBodies(entries, sections[0]);
      if bodies != [] {
        JoinedBodies(bodies);
      }
    }
  }

  // ----- reading it

  lemma {:induction false} FeedConcat(st: State, a: seq<string>, b: seq<string>)
    ensures FeedAll(st, a + b) == match FeedAll(st, a) case Err(e) => Err(e) case Ok(t) => FeedAll(t, b)
    decreases |a|
  {
    if a == [] {
      assert a + b == b;
    } else {
      assert (a + b)[0] == a[0] && (a + b)[1..] == a[1..] + b;
      if Feed(st, a[0]).Ok? {
        FeedConcat(Feed(st, a[0]).value, a[1..], b);
      }
    }
  }

  lemma {:induction false} FeedPlain(st: State, lines: seq<string>)
    requires st.section.Some? && NoHeadings(lines)
    ensures FeedAll(st, lines) == Ok(st.(lines := st.lines + lines))
    decreases |lines|
  {
    if lines == [] {
      assert st.lines + [] == st.lines;
    } else {
      assert Heading(lines[0]).None?;
      FeedPlain(st.(lines := st.lines + [lines[0]]), lines[1..]);
      assert st.lines + [lines[0]] + lines[1..] == st.lines + lines;
    }
  }

  lemma EmptyIsNoHeading()
    ensures Heading("") == None && SplitLines("") == []
  {
  }

  lemma SplitPart(e: Entry)
    requires e.0 in SECTIONS
    ensures SplitLines(PartOf(e)) == ["### " + e.0, ""] + SplitLines(e.1)
  {
    HeadingOfSection(e.0);
    var head := "### " + e.0;
    assert PartOf(e) == head + "\n" + ("" + "\n" + e.1);
    SplitFirst(head, "" + "\n" + e.1);
    SplitFirst("", e.1);
    assert [head] + ([""] + SplitLines(e.1)) == [head, ""] + SplitLines(e.1);
  }

  lemma FeedHeading(st: State, s: string)
    requires s in SECTIONS
    ensures Feed(st, "### " + s) == Ok(State(Closed(st), Some(s), []))
  {
    HeadingOfSection(s);
  }

  lemma FeedCons(st: State, line: string, lines: seq<string>)
    requires Feed(st, line).Ok?
    ensures FeedAll(st, [line] + lines) == FeedAll(Feed(st, line).value, lines)
  {
    assert ([line] + lines)[1..] == lines;
  }

  lemma PlainBody(body: string)
    requires IsBody(body)
    ensures NoHeadings([""] + SplitLines(body))
  {
    EmptyIsNoHeading();
  }

  /** Reading one part opens its section and collects an empty line and the body's lines. */
  lemma ReadPart(st: State, e: Entry)
    requires e.0 in SECTIONS && IsBody(e.1)
    ensures FeedAll(st, SplitLines(PartOf(e))) == Ok(State(Closed(st), Some(e.0), [""] + SplitLines(e.1)))
  {
    hide *;
    SplitPart(e);
    var lines := [""] + SplitLines(e.1);
    assert ["### " + e.0, ""] + SplitLines(e.1) == ["### " + e.0] + lines;
    FeedHeading(st, e.0);
    FeedCons(st, "### " + e.0, lines);
    PlainBody(e.1);
    FeedPlain(State(Closed(st), Some(e.0), []), lines);
    assert [] + lines == lines;
  }

  /** Closing after the part's lines, with or without the empty line before the next part, yields the body. */
  lemma CloseBody(body: string)
    requires IsBody(body)
    ensures StripNewlines(Join([""] + SplitLines(body))) == body
    ensures StripNewlines(Join([""] + SplitLines(body) + [""])) == body
  {
    hide *;
    BodyEdges(body);
    JoinSplit(body);
    JoinConcat([""], SplitLines(body));
    JoinConcat([""] + SplitLines(body), [""]);
    JoinOfEmpty();
    StripAround(body);
    assert "" + "\n" + body == "\n" + body;
    assert ("\n" + body) + "\n" + "" == "\n" + body + "\n";
  }

  lemma BodyEdges(body: string)
    requires IsBody(body)
    ensures Trimmed(body) && NewlinesOnly(body) && body != [] && body[|body| - 1] != '\n'
  {
  }

  lemma JoinOfEmpty()
    ensures Join([""]) == ""
  {
  }

  lemma SplitBetween(e: Entry, rest: string)
    requires e.0 in SECTIONS && IsBody(e.1)
    ensures SplitLines(PartOf(e) + "\n\n" + rest) == SplitLines(PartOf(e)) + ([""] + SplitLines(rest))
  {
    var part := PartOf(e);
    assert e.1 != [] && part[|part| - 1] == e.1[|e.1| - 1];
    assert part + "\n\n" + rest == part + "\n" + ("" + "\n" + rest);
    SplitConcat(part, "" + "\n" + rest);
    SplitFirst("", rest);
  }

  lemma ClosedPart(st: State, e: Entry, lines: seq<string>)
    requires StripNewlines(Join(lines)) == e.1
    ensures Closed(State(Closed(st), Some(e.0), lines)) == Closed(st) + [e]
  {
  }

  /** Reading a part in front of more text closes it and leaves the rest to read. */
  lemma ReadPartBefore(st: State, e: Entry, rest: string) returns (t: State)
    requires e.0 in SECTIONS && IsBody(e.1)
    ensures FeedAll(st, SplitLines(PartOf(e) + "\n\n" + rest)) == FeedAll(t, SplitLines(rest))
    ensures Closed(t) == Closed(st) + [e]
  {
    hide *;
    var lines := [""] + SplitLines(e.1);
    var inPart := State(Closed(st), Some(e.0), lines);
    t := inPart.(lines := lines + [""]);
    SplitBetween(e, rest);
    ReadPart(st, e);
    FeedConcat(st, SplitLines(PartOf(e)), [""] + SplitLines(rest));
    EmptyLineIsPlain();
    FeedPlain(inPart, [""]);
    FeedConcat(inPart, [""], SplitLines(rest));
    CloseBody(e.1);
    ClosedPart(st, e, lines + [""]);
  }

  lemma EmptyLineIsPlain()
    ensures NoHeadings([""])
  {
    EmptyIsNoHeading();
  }

  lemma ReadLastPart(st: State, e: Entry)
    requires e.0 in SECTIONS && IsBody(e.1)
    ensures FeedAll(st, SplitLines(PartOf(e))).Ok?
    ensures Closed(FeedAll(st, SplitLines(PartOf(e))).value) == Closed(st) + [e]
  {
    hide *;
    ReadPart(st, e);
    CloseBody(e.1);
    ClosedPart(st, e, [""] + SplitLines(e.1));
  }

  /** Reading the shown groups closes to exactly those groups. */
  lemma {:induction false} ReadShown(st: State, groups: seq<Entry>)
    requires groups != [] && AllGroups(groups)
    ensures FeedAll(st, SplitLines(Shown(groups))).Ok?
    ensures Closed(FeedAll(st, SplitLines(Shown(groups))).value) == Closed(st) + groups
    decreases |groups|
  {
    hide FeedAll, SplitLines, Closed, IsBody, PartOf;
    var e := groups[0];
    assert groups == [e] + groups[1..];
    if |groups| > 1 {
      var t := ReadPartBefore(st, e, Shown(groups[1..]));
      ReadShown(t, groups[1..]);
      assert (Closed(st) + [e]) + groups[1..] == Closed(st) + ([e] + groups[1..]);
    } else {
      ReadLastPart(st, e);
    }
  }

  lemma {:induction false} SomeGroup(sections: seq<string>, entries: seq<Entry>, i: nat)
    requires i < |entries| && !Blank(entries[i].1) && entries[i].0 in sections
    ensures GroupsOf(sections, entries) != []
  {
    if entries[i].0 == sections[0] {
      SomeBody(entries, i);
    } else {
      SomeGroup(sections[1..], entries, i);
    }
  }

  lemma {:induction false} SomeBody(entries: seq<Entry>, i: nat)
    requires i < |entries| && !Blank(entries[i].1)
    ensures BodiesOf(entries, entries[i].0) != []
  {
    if i < |entries| - 1 {
      SomeBody(entries[..|entries| - 1], i);
    }
  }

  /** An assembled text parses back to exactly the grouped bodies: each section once, in the fixed order, its bodies joined. */
  lemma AssembledParses(files: seq<string>)
    requires files != [] && Entries(files).Ok?
    ensures Assembled(files).Ok?
    ensures Parsed(Assembled(files).value) == Ok(GroupsOf(SECTIONS, Entries(files).value))
  {
    var entries := Entries(files).value;
    var groups := GroupsOf(SECTIONS, entries);
    EntriesAreClean(files);
    PartsAreShown(SECTIONS, entries);
    JoinPartsIsShown(Parts(SECTIONS, entries), groups);
    GroupsAreBodies(SECTIONS, entries);
    var i :| 0 <= i < |entries| && !Blank(entries[i].1);
    SomeGroup(SECTIONS, entries, i);
    ReadShown(START, groups);
    assert [] + groups == groups;
    assert !Blank(groups[0].1);
  }

  // ----- assembling again

  lemma {:induction false} BodiesConcat(a: seq<Entry>, b: seq<Entry>, s: string)
    ensures BodiesOf(a + b, s) == BodiesOf(a, s) + BodiesOf(b, s)
  {
    if b == [] {
      assert a + b == a;
    } else {
      assert (a + b)[..|a + b| - 1] == a + b[..|b| - 1];
      BodiesConcat(a, b[..|b| - 1], s);
    }
  }

  ghost predicate AllDistinct(s: seq<string>) {
    forall i, j :: 0 <= i < j < |s| ==> s[i] != s[j]
  }

  /** The groups hold one body for each section that had any. */
  lemma {:induction false} BodiesOfGroups(sections: seq<string>, entries: seq<Entry>, s: string)
    requires CleanEntries(entries) && AllDistinct(sections)
    ensures BodiesOf(GroupsOf(sections, entries), s) ==
            if s in sections && BodiesOf(entries, s) != [] then [Join(BodiesOf(entries, s))] else []
  {
    hide StripNewlines, IsClean, Blank, Join;
    if sections != [] {
      var rest := GroupsOf(sections[1..], entries);
      var bodies := BodiesOf(entries, sections[0]);
      BodiesOfGroups(sections[1..], entries, s);
      InFrontOrRest(sections, s);
      if bodies == [] {
        assert [] + rest == rest;
      } else {
        var e := (sections[0], Join(bodies));
        BodiesAreBodies(entries, sections[0]);
        JoinedBodies(bodies);
        BodiesOfOne(e, s);
        BodiesConcat([e], rest, s);
      }
    }
  }

  lemma InFrontOrRest(sections: seq<string>, s: string)
    requires sections != [] && AllDistinct(sections)
    ensures s in sections <==> s == sections[0] || s in sections[1..]
    ensures s == sections[0] ==> s !in sections[1..]
  {
    assert sections == [sections[0]] + sections[1..];
    forall k | 0 <= k < |sections[1..]| ensures sections[1..][k] != sections[0] {
      assert sections[0] != sections[k + 1];
    }
  }

  lemma BodiesOfOne(e: Entry, s: string)
    requires IsBody(e.1)
    ensures BodiesOf([e], s) == if e.0 == s then [e.1] else []
  {
    StripIsIdle(e.1);
    assert [e][..0] == [];
  }

  lemma {:induction false} SameParts(sections: seq<string>, a: seq<Entry>, b: seq<Entry>)
    requires forall i :: 0 <= i < |sections| ==>
      BodiesOf(b, sections[i]) == if BodiesOf(a, sections[i]) == [] then [] else [Join(BodiesOf(a, sections[i]))]
    ensures Parts(sections, b) == Parts(sections, a)
  {
    if sections != [] {
      SameParts(sections[1..], a, b);
    }
  }

  lemma SectionsAreDistinct()
    ensures AllDistinct(SECTIONS)
  {
  }

  lemma GroupsLayOutTheSame(entries: seq<Entry>)
    requires CleanEntries(entries)
    ensures Parts(SECTIONS, GroupsOf(SECTIONS, entries)) == Parts(SECTIONS, entries)
  {
    hide *;
    SectionsAreDistinct();
    var groups := GroupsOf(SECTIONS, entries);
    forall i | 0 <= i < |SECTIONS|
      ensures BodiesOf(groups, SECTIONS[i]) ==
              if BodiesOf(entries, SECTIONS[i]) == [] then [] else [Join(BodiesOf(entries, SECTIONS[i]))]
    {
      BodiesOfGroups(SECTIONS, entries, SECTIONS[i]);
    }
    SameParts(SECTIONS, entries, groups);
  }

  lemma EntriesOfOne(text: string)
    ensures Entries([text]) == Parsed(text)
  {
    assert [text][..0] == [];
    if Parsed(text).Ok? {
      assert [] + Parsed(text).value == Parsed(text).value;
    }
  }

  lemma AssembledIs(files: seq<string>)
    requires Entries(files).Ok?
    ensures Assembled(files) == Ok(JoinParts(Parts(SECTIONS, Entries(files).value)))
  {
  }

  /** Assembling the assembled text returns it unchanged. */
  lemma AssembledIsFixed(files: seq<string>)
    requires files != [] && Entries(files).Ok?
    ensures Assembled(files).Ok?
    ensures Assembled([Assembled(files).value]) == Assembled(files)
  {
    hide *;
    AssembledParses(files);
    var text := Assembled(files).value;
    EntriesOfOne(text);
    AssembledIs(files);
    AssembledIs([text]);
    EntriesAreClean(files);
    GroupsLayOutTheSame(Entries(files).value);
  }

  /** Every line of every non-blank body is kept, in file order and then in the order written. */
  lemma EveryLineIsKept(files: seq<string>, s: string)
    requires Entries(files).Ok? && BodiesOf(Entries(files).value, s) != []
    ensures var bodies := BodiesOf(Entries(files).value, s); SplitLines(Join(bodies)) == AllLinesOf(bodies)
  {
    EntriesAreClean(files);
    BodiesAreBodies(Entries(files).value, s);
    JoinedBodies(BodiesOf(Entries(files).value, s));
  }
}
