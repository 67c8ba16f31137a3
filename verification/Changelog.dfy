/** Changelog fragments, scripts/changelog.py: reading one, and assembling many. */
module Changelog {
  import opened Wrappers
  import opened Lines

  const SECTIONS: seq<string> := ["Added", "Changed", "Deprecated", "Removed", "Fixed", "Security"]

  datatype ParseError = UnknownSection | TextBeforeHeading | NoEntries

  type Entry = (string, string)

  // ----- headings

  function StripLeft(s: string): string {
    if s != [] && IsSpace(s[0]) then StripLeft(s[1..]) else s
  }

  function StripRight(s: string): string {
    if s != [] && IsSpace(s[|s| - 1]) then StripRight(s[..|s| - 1]) else s
  }

  predicate IsLower(c: char) { 'a' <= c <= 'z' }

  predicate IsUpper(c: char) { 'A' <= c <= 'Z' }

  function ToUpper(c: char): char {
    if IsLower(c) then c - ('a' - 'A') else c
  }

  function ToLower(c: char): char {
    if IsUpper(c) then c + ('a' - 'A') else c
  }

  /** `title()` on ASCII text: a letter after a letter is lowered, any other is raised. */
  function Title(s: string): (r: string)
    ensures |r| == |s|
  {
    if s == [] then []
    else
      var last := s[|s| - 1];
      var inWord := |s| > 1 && (IsLower(s[|s| - 2]) || IsUpper(s[|s| - 2]));
      Title(s[..|s| - 1]) + [if inWord then ToLower(last) else ToUpper(last)]
  }

  /** The title of a line `### <title>`: at least one space after the marks and one more character. */
  function Heading(line: string): Option<string> {
    if |line| >= 5 && line[..3] == "###" && IsSpace(line[3]) then Some(Title(StripRight(StripLeft(line[3..]))))
    else None
  }

  // ----- reading a fragment, line by line

  datatype State = State(out: seq<Entry>, section: Option<string>, lines: seq<string>)

  const START := State([], None, [])

  /** The entries once the open section is closed. */
  function Closed(st: State): seq<Entry> {
    if st.section.Some? then st.out + [(st.section.value, StripNewlines(Join(st.lines)))] else st.out
  }

  function Feed(st: State, line: string): Result<State, ParseError> {
    var title := Heading(line);
    if title.Some? then
      if title.value !in SECTIONS then Err(UnknownSection) else Ok(State(Closed(st), title, []))
    else if st.section.None? then
      if Blank(line) then Ok(st) else Err(TextBeforeHeading)
    else Ok(st.(lines := st.lines + [line]))
  }

  function FeedAll(st: State, lines: seq<string>): Result<State, ParseError>
    decreases |lines|
  {
    if lines == [] then Ok(st)
    else
      var next :- Feed(st, lines[0]);
      FeedAll(next, lines[1..])
  }

  function Finish(st: State): Result<seq<Entry>, ParseError> {
    var out := Closed(st);
    if forall i :: 0 <= i < |out| ==> Blank(out[i].1) then Err(NoEntries) else Ok(out)
  }

  function Parsed(text: string): Result<seq<Entry>, ParseError> {
    var st :- FeedAll(START, SplitLines(text));
    Finish(st)
  }

  // ----- assembling fragments

  /** The bodies of one section among some entries, in order: blank ones are dropped. */
  function BodiesOf(entries: seq<Entry>, section: string): seq<string> {
    if entries == [] then []
    else
      var last := entries[|entries| - 1];
      var before := BodiesOf(entries[..|entries| - 1], section);
      if last.0 == section && !Blank(last.1) then before + [StripNewlines(last.1)] else before
  }

  /** All entries of the fragments in file order; the first fragment that does not parse decides the error. */
  function Entries(files: seq<string>): Result<seq<Entry>, ParseError> {
    if files == [] then Ok([])
    else
      var before :- Entries(files[..|files| - 1]);
      var last :- Parsed(files[|files| - 1]);
      Ok(before + last)
  }

  function Part(section: string, bodies: seq<string>): string {
    "### " + section + "\n\n" + Join(bodies)
  }

  /** The parts of the sections that have bodies, in the order of the sections. */
  function Parts(sections: seq<string>, entries: seq<Entry>): seq<string> {
    if sections == [] then []
    else
      var bodies := BodiesOf(entries, sections[0]);
      (if bodies == [] then [] else [Part(sections[0], bodies)]) + Parts(sections[1..], entries)
  }

  /** `"\n\n".join` */
  function JoinParts(parts: seq<string>): string {
    if parts == [] then []
    else if |parts| == 1 then parts[0]
    else parts[0] + "\n\n" + JoinParts(parts[1..])
  }

  function Assembled(files: seq<string>): Result<string, ParseError> {
    var entries :- Entries(files);
    Ok(JoinParts(Parts(SECTIONS, entries)))
  }

  // ----- the code

  method Parse(text: string) returns (r: Result<seq<Entry>, ParseError>)
    ensures r == Parsed(text)
  {
    var all := SplitLines(text);
    var out: seq<Entry> := [];
    var section: Option<string> := None;
    var lines: seq<string> := [];
    for k := 0 to |all|
      invariant FeedAll(START, all) == FeedAll(State(out, section, lines), all[k..])
    {
      var line := all[k];
      assert all[k..][0] == line && all[k..][1..] == all[k + 1..];
      var title := Heading(line);
      if title.Some? {
        if section.Some? {
          out := out + [(section.value, StripNewlines(Join(lines)))];
        }
        if title.value !in SECTIONS {
          return Err(UnknownSection);
        }
        section, lines := title, [];
        continue;
      }
      if section.None? {
        if !Blank(line) {
          return Err(TextBeforeHeading);
        }
        continue;
      }
      lines := lines + [line];
    }
    ghost var st := State(out, section, lines);
    assert all[|all|..] == [];
    assert Parsed(text) == Finish(st);
    if section.Some? {
      out := out + [(section.value, StripNewlines(Join(lines)))];
    }
    assert out == Closed(st);
    if forall i :: 0 <= i < |out| ==> Blank(out[i].1) {
      return Err(NoEntries);
    }
    r := Ok(out);
  }

  type Groups = map<string, seq<string>>

  ghost predicate HoldsBodies(g: Groups, entries: seq<Entry>) {
    forall s :: s in SECTIONS ==> s in g && g[s] == BodiesOf(entries, s)
  }

  /** One fragment's entries into the dictionary of lists. */
  method Group(grouped: Groups, ghost before: seq<Entry>, entries: seq<Entry>) returns (g: Groups)
    requires HoldsBodies(grouped, before) && forall i :: 0 <= i < |entries| ==> entries[i].0 in SECTIONS
    ensures HoldsBodies(g, before + entries)
  {
    hide BodiesOf, StripNewlines, Blank;
    g := grouped;
    assert before + entries[..0] == before;
    for i := 0 to |entries|
      invariant HoldsBodies(g, before + entries[..i])
    {
      var e := entries[i];
      BodiesAppend(before + entries[..i], e);
      assert before + entries[..i] + [e] == before + entries[..i + 1];
      if !Blank(e.1) {
        g := g[e.0 := g[e.0] + [StripNewlines(e.1)]];
      }
    }
    assert entries[..|entries|] == entries;
  }

  lemma BodiesAppend(entries: seq<Entry>, e: Entry)
    ensures forall s ::
              BodiesOf(entries + [e], s)
              == if e.0 == s && !Blank(e.1) then BodiesOf(entries, s) + [StripNewlines(e.1)] else BodiesOf(entries, s)
  {
    assert (entries + [e])[..|entries|] == entries;
  }

  /** The loop over the files. */
  method Collect(files: seq<string>) returns (r: Result<Groups, ParseError>)
    ensures match Entries(files)
            case Err(e) => r == Err(e)
            case Ok(entries) => r.Ok? && HoldsBodies(r.value, entries)
  {
    var grouped: Groups := map s | s in SECTIONS :: [];
    ghost var entries: seq<Entry> := [];
    for k := 0 to |files|
      invariant Entries(files[..k]) == Ok(entries)
      invariant HoldsBodies(grouped, entries)
    {
      var parsed := Parse(files[k]);
      EntriesStep(files, k);
      if parsed.Err? {
        EntriesFail(files, k);
        return Err(parsed.error);
      }
      ParsedSections(files[k]);
      grouped := Group(grouped, entries, parsed.value);
      entries := entries + parsed.value;
    }
    assert files[..|files|] == files;
    r := Ok(grouped);
  }

  /** The loop over the sections. */
  method LayOut(grouped: Groups, ghost entries: seq<Entry>) returns (text: string)
    requires HoldsBodies(grouped, entries)
    ensures text == JoinParts(Parts(SECTIONS, entries))
  {
    var parts := [];
    for k := 0 to |SECTIONS|
      invariant Parts(SECTIONS, entries) == parts + Parts(SECTIONS[k..], entries)
    {
      var s := SECTIONS[k];
      PartsStep(SECTIONS[k..], entries);
      assert SECTIONS[k..][1..] == SECTIONS[k + 1..];
      if grouped[s] != [] {
        PrependPart(parts, Part(s, grouped[s]), Parts(SECTIONS[k + 1..], entries));
        parts := parts + [Part(s, grouped[s])];
      }
    }
    assert SECTIONS[|SECTIONS|..] == [] && parts + [] == parts;
    text := JoinParts(parts);
  }

  lemma PartsStep(sections: seq<string>, entries: seq<Entry>)
    requires sections != []
    ensures Parts(sections, entries) ==
            var bodies := BodiesOf(entries, sections[0]);
            if bodies == [] then Parts(sections[1..], entries)
            else [Part(sections[0], bodies)] + Parts(sections[1..], entries)
  {
  }

  lemma PrependPart(a: seq<string>, x: string, b: seq<string>)
    ensures a + ([x] + b) == a + [x] + b
  {
  }

  method AssembleText(files: seq<string>) returns (r: Result<string, ParseError>)
    ensures r == Assembled(files)
  {
    var grouped := Collect(files);
    if grouped.Err? {
      return Err(grouped.error);
    }
    var text := LayOut(grouped.value, Entries(files).value);
    r := Ok(text);
  }

  lemma EntriesStep(files: seq<string>, k: nat)
    requires k < |files| && Entries(files[..k]).Ok?
    ensures Entries(files[..k + 1]) ==
      match Parsed(files[k]) case Err(e) => Err(e) case Ok(es) => Ok(Entries(files[..k]).value + es)
  {
    assert files[..k + 1][..k] == files[..k];
  }

  lemma {:induction false} EntriesFail(files: seq<string>, k: nat)
    requires k < |files| && Entries(files[..k + 1]).Err?
    ensures Entries(files) == Entries(files[..k + 1])
  {
    if k + 1 < |files| {
      assert files[..|files| - 1][..k + 1] == files[..k + 1];
      EntriesFail(files[..|files| - 1], k);
    } else {
      assert files[..k + 1] == files;
    }
  }

  // ----- every parsed entry belongs to a known section

  lemma {:induction false} FedSections(st: State, lines: seq<string>)
    requires (forall i :: 0 <= i < |st.out| ==> st.out[i].0 in SECTIONS) && (st.section.Some? ==> st.section.value in SECTIONS)
    ensures var r := FeedAll(st, lines);
            r.Ok? ==>
              && (forall i :: 0 <= i < |r.value.out| ==> r.value.out[i].0 in SECTIONS)
              && (r.value.section.Some? ==> r.value.section.value in SECTIONS)
    decreases |lines|
  {
    if lines != [] && Feed(st, lines[0]).Ok? {
      FedSections(Feed(st, lines[0]).value, lines[1..]);
    }
  }

  lemma ParsedSections(text: string)
    ensures Parsed(text).Ok? ==> forall i :: 0 <= i < |Parsed(text).value| ==> Parsed(text).value[i].0 in SECTIONS
  {
    FedSections(START, SplitLines(text));
  }
}
