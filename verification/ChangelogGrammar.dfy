/** Exactly what scripts/changelog.py reads from a fragment, and when it refuses one. */
module ChangelogGrammar {
  import opened Wrappers
  import opened Seqs
  import opened Lines
  import opened Changelog
  import opened ChangelogRoundTrip

  // ----- headings: marks, space, a section name in any case, space

  /** The white space of Python's `strip`. */
  lemma SpaceMeans(c: char)
    ensures IsSpace(c) <==>
            var n := c as int;
            || n in {9, 10, 11, 12, 13, 28, 29, 30, 31, 32, 133, 160, 5760, 8232, 8233, 8239, 8287, 12288}
            || n in {8192, 8193, 8194, 8195, 8196, 8197, 8198, 8199, 8200, 8201, 8202}
  {
  }

  ghost predicate AllSpace(s: string) {
    forall i :: 0 <= i < |s| ==> IsSpace(s[i])
  }

  lemma {:induction false} LeftOff(a: string, s: string)
    requires AllSpace(a) && s != "" && !IsSpace(s[0])
    ensures StripLeft(a + s) == s
  {
    hide IsSpace;
    if a == "" {
      assert a + s == s;
    } else {
      LeftOff(a[1..], s);
      assert (a + s)[1..] == a[1..] + s && (a + s)[0] == a[0];
    }
  }

  lemma {:induction false} RightOff(s: string, z: string)
    requires AllSpace(z) && s != "" && !IsSpace(s[|s| - 1])
    ensures StripRight(s + z) == s
  {
    hide IsSpace;
    if z == "" {
      assert s + z == s;
    } else {
      var n := |z| - 1;
      RightOff(s, z[..n]);
      assert (s + z)[..|s + z| - 1] == s + z[..n] && (s + z)[|s + z| - 1] == z[n];
    }
  }

  lemma {:induction false} LeftIs(s: string) returns (a: string)
    ensures AllSpace(a) && s == a + StripLeft(s)
  {
    hide IsSpace;
    a := "";
    if s != "" && IsSpace(s[0]) {
      var x := LeftIs(s[1..]);
      a := [s[0]] + x;
      assert s == [s[0]] + s[1..];
    }
  }

  lemma {:induction false} RightIs(s: string) returns (z: string)
    ensures AllSpace(z) && s == StripRight(s) + z
  {
    hide IsSpace;
    z := "";
    if s != "" && IsSpace(s[|s| - 1]) {
      var x := RightIs(s[..|s| - 1]);
      z := x + [s[|s| - 1]];
      assert s == s[..|s| - 1] + [s[|s| - 1]];
    }
  }

  /** The code of a letter without its case. */
  function Caseless(c: char): int {
    if 65 <= c as int <= 90 then c as int + 32 else c as int
  }

  ghost predicate SameWord(s: string, t: string) {
    |s| == |t| && forall i :: 0 <= i < |s| ==> Caseless(s[i]) == Caseless(t[i])
  }

  lemma RaisedIs(c: char, u: char)
    requires IsUpper(u)
    ensures ToUpper(c) == u <==> Caseless(c) == Caseless(u)
  {
  }

  lemma LoweredIs(c: char, l: char)
    requires IsLower(l)
    ensures ToLower(c) == l <==> Caseless(c) == Caseless(l)
    ensures ToUpper(c) != l
    ensures Caseless(c) == Caseless(l) ==> IsLower(c) || IsUpper(c)
  {
  }

  lemma CaselessUpper(c: char, u: char)
    requires IsUpper(u) && Caseless(c) == Caseless(u)
    ensures IsLower(c) || IsUpper(c)
  {
  }

  lemma {:induction false} TitleMeans(s: string, t: string)
    requires IsTitled(t)
    ensures Title(s) == t <==> SameWord(s, t)
  {
    hide ToUpper, ToLower, Caseless, IsUpper, IsLower;
    if s == "" {
    } else if |s| == |t| {
      var n := |s| - 1;
      assert t == t[..n] + [t[n]];
      if n == 0 {
        RaisedIs(s[0], t[0]);
        assert Title(s[..0]) == "";
      } else {
        TitleMeans(s[..n], t[..n]);
        LoweredIs(s[n], t[n]);
        LetterBefore(s, t, n - 1);
      }
    }
  }

  lemma LetterBefore(s: string, t: string, i: nat)
    requires IsTitled(t) && i < |s| && i < |t|
    ensures Caseless(s[i]) == Caseless(t[i]) ==> IsLower(s[i]) || IsUpper(s[i])
  {
    if i == 0 {
      if Caseless(s[0]) == Caseless(t[0]) {
        CaselessUpper(s[0], t[0]);
      }
    } else {
      LoweredIs(s[i], t[i]);
    }
  }

  predicate IsSection(s: string) {
    s == "Added" || s == "Changed" || s == "Deprecated" || s == "Removed" || s == "Fixed" || s == "Security"
  }

  lemma SectionsAre(s: string)
    ensures s in SECTIONS <==> IsSection(s)
    ensures SECTIONS == ["Added", "Changed", "Deprecated", "Removed", "Fixed", "Security"]
  {
  }

  /** How a heading may be written: spaces around the name, and the name in any case. */
  ghost predicate SpellsHeading(line: string, section: string) {
    exists a, name, z ::
      line == "###" + a + name + z && a != "" && AllSpace(a) && AllSpace(z) && SameWord(name, section)
  }

  lemma WordEdges(name: string, section: string)
    requires IsTitled(section) && SameWord(name, section)
    ensures name != "" && !IsSpace(name[0]) && !IsSpace(name[|name| - 1])
  {
    LetterBefore(name, section, 0);
    LetterBefore(name, section, |name| - 1);
    LetterIsNoSpace(name[0]);
    LetterIsNoSpace(name[|name| - 1]);
  }

  lemma SpelledIsHeading(line: string, section: string)
    requires IsTitled(section) && SpellsHeading(line, section)
    ensures Heading(line) == Some(section)
  {
    hide Title, SameWord, IsSpace, IsTitled;
    var a, name, z :|
      line == "###" + a + name + z && a != "" && AllSpace(a) && AllSpace(z) && SameWord(name, section);
    WordEdges(name, section);
    assert line[..3] == "###" && line[3..] == a + (name + z) && line[3] == a[0];
    assert (name + z)[0] == name[0];
    LeftOff(a, name + z);
    RightOff(name, z);
    TitleMeans(name, section);
  }

  lemma HeadingIsSpelled(line: string, section: string)
    requires IsTitled(section) && Heading(line) == Some(section)
    ensures SpellsHeading(line, section)
  {
    hide Title, SameWord, IsSpace, IsTitled;
    var y := line[3..];
    var a := LeftIs(y);
    var z := RightIs(StripLeft(y));
    var name := StripRight(StripLeft(y));
    TitleMeans(name, section);
    WordEdges(name, section);
    NoSpaceNoGap(y, a, name, z);
    assert line == "###" + y && y == a + (name + z);
    assert "###" + (a + (name + z)) == "###" + a + name + z;
  }

  lemma NoSpaceNoGap(y: string, a: string, name: string, z: string)
    requires y == a + (name + z) && name != ""
    ensures y != "" && (a == "" ==> y[0] == name[0])
  {
  }

  /** A line is the heading of a section exactly when it is one of its spellings. */
  lemma HeadingExactly(line: string, section: string)
    requires IsSection(section)
    ensures Heading(line) == Some(section) <==> SpellsHeading(line, section)
  {
    hide Heading, SpellsHeading, IsTitled;
    SectionsAre(section);
    SectionsAreTitled(section);
    if Heading(line) == Some(section) {
      HeadingIsSpelled(line, section);
    }
    if SpellsHeading(line, section) {
      SpelledIsHeading(line, section);
    }
  }

  /** A line that looks like a heading: marks, a space, and one character more. */
  predicate IsHeading(line: string) {
    |line| >= 5 && line[..3] == "###" && IsSpace(line[3])
  }

  // ----- a text as blocks: each heading with the lines up to the next

  function Blocks(lines: seq<string>): seq<(string, seq<string>)>
    decreases |lines|
  {
    var k := Skip(lines, IsHeading);
    if k == |lines| then []
    else
      var below := lines[k + 1..];
      var m := Skip(below, IsHeading);
      [(lines[k], below[..m])] + Blocks(below[m..])
  }

  function NameOf(heading: string): string {
    var h := Heading(heading);
    if h.Some? then h.value else ""
  }

  function EntriesOf(blocks: seq<(string, seq<string>)>): (r: seq<Entry>)
    ensures |r| == |blocks|
    ensures forall i :: 0 <= i < |r| ==> r[i] == (NameOf(blocks[i].0), StripNewlines(Join(blocks[i].1)))
  {
    seq(|blocks|, i requires 0 <= i < |blocks| => (NameOf(blocks[i].0), StripNewlines(Join(blocks[i].1))))
  }

  ghost predicate AllBlank(lines: seq<string>) {
    forall i :: 0 <= i < |lines| ==> AllSpace(lines[i])
  }

  ghost predicate AllKnown(blocks: seq<(string, seq<string>)>) {
    forall i :: 0 <= i < |blocks| ==> IsSection(NameOf(blocks[i].0))
  }

  lemma HeadingsAre(line: string)
    ensures IsHeading(line) <==> Heading(line).Some?
    ensures Blank(line) <==> AllSpace(line)
  {
  }

  lemma PlainLines(lines: seq<string>, n: nat)
    requires n <= |lines| && forall i :: 0 <= i < n ==> !IsHeading(lines[i])
    ensures NoHeadings(lines[..n])
  {
    hide IsHeading, Heading;
    forall i | 0 <= i < n ensures Heading(lines[i]).None? {
      HeadingsAre(lines[i]);
    }
  }

  /** Before the first heading only blank lines are passed over. */
  lemma {:induction false} FeedLead(lines: seq<string>)
    requires NoHeadings(lines)
    ensures FeedAll(START, lines) == if AllBlank(lines) then Ok(START) else Err(TextBeforeHeading)
    decreases |lines|
  {
    hide Heading, IsSpace;
    if lines != [] {
      HeadingsAre(lines[0]);
      assert NoHeadings(lines[1..]);
      FeedLead(lines[1..]);
      if AllSpace(lines[0]) {
        BlankRest(lines);
      }
    }
  }

  lemma BlankRest(lines: seq<string>)
    requires lines != [] && AllSpace(lines[0])
    ensures AllBlank(lines) <==> AllBlank(lines[1..])
  {
    hide AllSpace;
    if AllBlank(lines[1..]) {
      forall i | 0 <= i < |lines| ensures AllSpace(lines[i]) {
        assert i > 0 ==> lines[i] == lines[1..][i - 1];
      }
    }
  }

  lemma FeedBlock(st: State, heading: string, body: seq<string>, rest: seq<string>)
    requires IsHeading(heading) && NoHeadings(body)
    ensures var full := State(Closed(st), Some(NameOf(heading)), body);
            FeedAll(st, [heading] + (body + rest))
            == if IsSection(NameOf(heading)) then FeedAll(full, rest) else Err(UnknownSection)
  {
    hide IsHeading, Heading, IsSection, Closed, Join, StripNewlines;
    var lines := [heading] + (body + rest);
    assert lines[1..] == body + rest;
    HeadingsAre(heading);
    SectionsAre(NameOf(heading));
    if IsSection(NameOf(heading)) {
      var open := State(Closed(st), Some(NameOf(heading)), []);
      FeedPlain(open, body);
      FeedConcat(open, body, rest);
      assert [] + body == body;
    }
  }

  lemma FirstBlock(lines: seq<string>) returns (body: seq<string>, rest: seq<string>)
    requires lines != [] && IsHeading(lines[0])
    ensures lines == [lines[0]] + (body + rest) && NoHeadings(body) && (rest != [] ==> IsHeading(rest[0]))
    ensures Blocks(lines) == [(lines[0], body)] + Blocks(rest)
  {
    hide IsHeading, NoHeadings, Blocks, Skip;
    var below := lines[1..];
    var m := Skip(below, IsHeading);
    body, rest := below[..m], below[m..];
    PlainLines(below, m);
    assert below == body + rest;
    BlocksFrom(lines);
  }

  lemma BlocksFrom(lines: seq<string>)
    requires lines != [] && IsHeading(lines[0])
    ensures var below := lines[1..];
            var m := Skip(below, IsHeading);
            Blocks(lines) == [(lines[0], below[..m])] + Blocks(below[m..])
  {
    hide IsHeading, Skip;
    SkipIs(lines, IsHeading, 0);
  }

  /** From a heading on, every block is closed as an entry, and the first unknown name refuses the text. */
  lemma {:induction false} FeedBlocks(st: State, lines: seq<string>)
    requires lines != [] ==> IsHeading(lines[0])
    ensures var r := FeedAll(st, lines);
            if AllKnown(Blocks(lines)) then r.Ok? && Closed(r.value) == Closed(st) + EntriesOf(Blocks(lines))
            else r == Err(UnknownSection)
    decreases |lines|
  {
    hide *;
    if lines == [] {
      NoBlocks(st);
    } else {
      var body, rest := FirstBlock(lines);
      var h := lines[0];
      FeedBlock(st, h, body, rest);
      BlocksStep(h, body, Blocks(rest));
      if IsSection(NameOf(h)) {
        var full := State(Closed(st), Some(NameOf(h)), body);
        FeedBlocks(full, rest);
        ClosedBlock(st, h, body);
        assert Closed(st) + [(NameOf(h), StripNewlines(Join(body)))] + EntriesOf(Blocks(rest))
            == Closed(st) + ([(NameOf(h), StripNewlines(Join(body)))] + EntriesOf(Blocks(rest)));
      }
    }
  }

  lemma NoBlocks(st: State)
    ensures Blocks([]) == [] && AllKnown([]) && FeedAll(st, []) == Ok(st) && Closed(st) + EntriesOf([]) == Closed(st)
  {
  }

  lemma ClosedBlock(st: State, heading: string, body: seq<string>)
    ensures Closed(State(Closed(st), Some(NameOf(heading)), body))
         == Closed(st) + [(NameOf(heading), StripNewlines(Join(body)))]
  {
    hide NameOf, StripNewlines, Join;
  }

  lemma BlocksStep(heading: string, body: seq<string>, blocks: seq<(string, seq<string>)>)
    ensures var all := [(heading, body)] + blocks;
            && (AllKnown(all) <==> IsSection(NameOf(heading)) && AllKnown(blocks))
            && EntriesOf(all) == [(NameOf(heading), StripNewlines(Join(body)))] + EntriesOf(blocks)
  {
    hide Heading, NameOf, StripNewlines, Join, IsSection;
    var all := [(heading, body)] + blocks;
    assert all[0] == (heading, body) && all[1..] == blocks;
    if AllKnown(all) {
      forall i | 0 <= i < |blocks| ensures IsSection(NameOf(blocks[i].0)) {
        assert all[i + 1] == blocks[i];
      }
    }
  }

  lemma NewlineIsSpace()
    ensures IsSpace('\n')
  {
  }

  lemma {:induction false} BlankJoin(lines: seq<string>)
    ensures AllSpace(Join(lines)) <==> AllBlank(lines)
  {
    hide IsSpace;
    NewlineIsSpace();
    if |lines| == 1 {
      assert AllBlank(lines) <==> AllSpace(lines[0]);
    } else if lines != [] {
      BlankJoin(lines[1..]);
      SpaceConcat(lines[0], "\n");
      SpaceConcat(lines[0] + "\n", Join(lines[1..]));
      if AllSpace(lines[0]) {
        BlankRest(lines);
      }
    }
  }

  lemma SpaceConcat(a: string, b: string)
    ensures AllSpace(a + b) <==> AllSpace(a) && AllSpace(b)
  {
    hide IsSpace;
    var s := a + b;
    if AllSpace(s) {
      forall i | 0 <= i < |a| ensures IsSpace(a[i]) { assert s[i] == a[i]; }
      forall i | 0 <= i < |b| ensures IsSpace(b[i]) { assert s[|a| + i] == b[i]; }
    }
  }

  lemma BlankBody(lines: seq<string>)
    ensures Blank(StripNewlines(Join(lines))) <==> AllBlank(lines)
  {
    hide IsSpace, StripNewlines, Join;
    BlankJoin(lines);
    var s := Join(lines);
    var a, z := StripMeans(s);
    NewlinesAreSpace(a);
    NewlinesAreSpace(z);
    SpaceConcat(a, StripNewlines(s));
    SpaceConcat(a + StripNewlines(s), z);
  }

  lemma NewlinesAreSpace(s: string)
    requires AllNewlines(s)
    ensures AllSpace(s)
  {
    hide IsSpace;
    NewlineIsSpace();
  }

  /** Some block has a line that is not blank. */
  ghost predicate SaysSomething(blocks: seq<(string, seq<string>)>) {
    exists i :: 0 <= i < |blocks| && !AllBlank(blocks[i].1)
  }

  lemma BodiesSay(blocks: seq<(string, seq<string>)>)
    ensures var out := EntriesOf(blocks);
            (forall i :: 0 <= i < |out| ==> Blank(out[i].1)) <==> !SaysSomething(blocks)
  {
    hide Blank, StripNewlines, Join, NameOf, AllBlank;
    var out := EntriesOf(blocks);
    forall i | 0 <= i < |blocks| ensures Blank(out[i].1) <==> AllBlank(blocks[i].1) {
      BlankBody(blocks[i].1);
    }
    if SaysSomething(blocks) {
      var i :| 0 <= i < |blocks| && !AllBlank(blocks[i].1);
      assert !Blank(out[i].1);
    }
  }

  lemma BlocksOf(lines: seq<string>)
    ensures var k := Skip(lines, IsHeading); Blocks(lines) == Blocks(lines[k..])
  {
    hide IsHeading, Skip;
    var k := Skip(lines, IsHeading);
    if k < |lines| {
      SkipIs(lines[k..], IsHeading, 0);
      assert lines[k..][0] == lines[k] && lines[k..][1..] == lines[k + 1..];
    }
  }

  /** What `parse` answers: text before the first heading, then a heading of no section, then nothing but blank bodies
      refuse the fragment, and otherwise its entries are its blocks. */
  lemma ParsedExactly(text: string)
    ensures var lines := SplitLines(text);
            var lead, blocks := lines[..Skip(lines, IsHeading)], Blocks(lines);
            Parsed(text) ==
            if !AllBlank(lead) then Err(TextBeforeHeading)
            else if !AllKnown(blocks) then Err(UnknownSection)
            else if !SaysSomething(blocks) then Err(NoEntries)
            else Ok(EntriesOf(blocks))
  {
    hide SplitLines, FeedAll, Blocks, IsHeading, Heading, EntriesOf, AllKnown, SaysSomething, AllBlank, Blank;
    var lines := SplitLines(text);
    var k := Skip(lines, IsHeading);
    PlainLines(lines, k);
    FeedLead(lines[..k]);
    FeedConcat(START, lines[..k], lines[k..]);
    assert lines == lines[..k] + lines[k..];
    BlocksOf(lines);
    FeedBlocks(START, lines[k..]);
    BodiesSay(Blocks(lines));
    assert [] + EntriesOf(Blocks(lines)) == EntriesOf(Blocks(lines));
  }

  /** Headings and bodies of blocks, one after another. */
  function Listed(blocks: seq<(string, seq<string>)>): seq<string> {
    if blocks == [] then [] else [blocks[0].0] + blocks[0].1 + Listed(blocks[1..])
  }

  lemma ListedStep(heading: string, body: seq<string>, blocks: seq<(string, seq<string>)>)
    ensures Listed([(heading, body)] + blocks) == [heading] + (body + Listed(blocks))
  {
    assert ([(heading, body)] + blocks)[1..] == blocks;
    assert [heading] + body + Listed(blocks) == [heading] + (body + Listed(blocks));
  }

  lemma {:induction false} ListedBlocks(lines: seq<string>)
    requires lines != [] ==> IsHeading(lines[0])
    ensures Listed(Blocks(lines)) == lines
    decreases |lines|
  {
    hide *;
    if lines == [] {
      NoBlocks(START);
      NothingListed();
    } else {
      var body, rest := FirstBlock(lines);
      ListedBlocks(rest);
      ListedStep(lines[0], body, Blocks(rest));
    }
  }

  lemma NothingListed()
    ensures Listed([]) == []
  {
  }

  /** Every line is a heading, in the body of one, or before the first. */
  lemma BlocksAreAll(lines: seq<string>)
    ensures lines == lines[..Skip(lines, IsHeading)] + Listed(Blocks(lines))
  {
    hide *;
    var k := Skip(lines, IsHeading);
    var lead, from := lines[..k], lines[k..];
    BlocksOf(lines);
    assert from != [] ==> from[0] == lines[k];
    ListedBlocks(from);
    assert lines == lead + from;
  }

  // ----- what is assembled

  function PartFor(section: string, entries: seq<Entry>): seq<string> {
    var bodies := BodiesOf(entries, section);
    if bodies == [] then [] else ["### " + section + "\n\n" + Join(bodies)]
  }

  /** The sections come in the order of the changelog convention, each at most once. */
  lemma AssembledReads(files: seq<string>)
    requires Entries(files).Ok?
    ensures var e := Entries(files).value;
            Assembled(files) == Ok(JoinParts(
              PartFor("Added", e) + PartFor("Changed", e) + PartFor("Deprecated", e)
              + PartFor("Removed", e) + PartFor("Fixed", e) + PartFor("Security", e)))
  {
    hide BodiesOf, Join, JoinParts, Entries, PartFor;
    var e := Entries(files).value;
    SectionsAre("Added");
    PartsAre(SECTIONS, e);
    PartsAre(SECTIONS[1..], e);
    PartsAre(SECTIONS[2..], e);
    PartsAre(SECTIONS[3..], e);
    PartsAre(SECTIONS[4..], e);
    PartsAre(SECTIONS[5..], e);
    assert SECTIONS[1..][1..] == SECTIONS[2..] && SECTIONS[2..][1..] == SECTIONS[3..];
    assert SECTIONS[3..][1..] == SECTIONS[4..] && SECTIONS[4..][1..] == SECTIONS[5..] && SECTIONS[5..][1..] == [];
    assert Parts([], e) == [];
    SixParts(PartFor("Added", e), PartFor("Changed", e), PartFor("Deprecated", e),
             PartFor("Removed", e), PartFor("Fixed", e), PartFor("Security", e));
    AssembledIs(files);
  }

  lemma SixParts(a: seq<string>, b: seq<string>, c: seq<string>, d: seq<string>, e: seq<string>, f: seq<string>)
    ensures a + (b + (c + (d + (e + (f + []))))) == a + b + c + d + e + f
  {
  }

  lemma PartsAre(sections: seq<string>, entries: seq<Entry>)
    requires sections != []
    ensures Parts(sections, entries) == PartFor(sections[0], entries) + Parts(sections[1..], entries)
  {
  }
}
