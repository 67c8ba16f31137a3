/** A form-data reader after section 5.1.1 of RFC 2046, section 4 of RFC 7578 and section 2 of RFC 2183, and
    what it recovers from an upload body. */
module MultipartReader {
  import opened Wrappers
  import opened Seqs
  import opened Bytes
  import opened Boundary
  import opened BoundarySearch
  import opened Multipart

  // ----- the reader

  datatype Part = Part(name: Text, filename: Option<Text>, contentType: Option<Text>, content: Text)

  /** The header lines up to the empty line, and what follows it. */
  function Headers(c: Text): Option<(seq<Text>, Text)>
    decreases |c|
  {
    var i :- Find(c, CRLF);
    if i == 0 then Some(([], c[2..]))
    else
      var h :- Headers(c[i + 2..]);
      Some(([c[..i]] + h.0, h.1))
  }

  /** What follows the prefix in the first line that has it. */
  function FindLine(lines: seq<Text>, prefix: Text): Option<Text> {
    if lines == [] then None
    else if prefix <= lines[0] then Some(lines[0][|prefix|..])
    else FindLine(lines[1..], prefix)
  }

  /** A quoted-string whose opening quote was read (section 2 of RFC 2183): its text and what follows its closing quote.
      A backslash quotes the byte after it. */
  function Quoted(s: Text): Option<(Text, Text)>
    decreases |s|
  {
    if s == [] || s == [BACKSLASH] then None
    else if s[0] == QUOTE then Some(([], s[1..]))
    else if s[0] == BACKSLASH then
      var q :- Quoted(s[2..]);
      Some(([s[1]] + q.0, q.1))
    else
      var q :- Quoted(s[1..]);
      Some(([s[0]] + q.0, q.1))
  }

  predicate IsBlank(b: byte) {
    b == SPACE || b == TAB
  }

  /** A header's value without the white space around it. */
  function TrimBlanks(s: Text): (r: Text)
    ensures |r| <= |s|
    ensures r == s <==> s == [] || (!IsBlank(s[0]) && !IsBlank(s[|s| - 1]))
    ensures r == [] || (!IsBlank(r[0]) && !IsBlank(r[|r| - 1]))
    decreases |s|
  {
    if s != [] && IsBlank(s[0]) then TrimBlanks(s[1..])
    else if s != [] && IsBlank(s[|s| - 1]) then TrimBlanks(s[..|s| - 1])
    else s
  }

  function TypeOf(lines: seq<Text>): Option<Text> {
    var value :- FindLine(lines, CONTENT_TYPE);
    Some(TrimBlanks(value))
  }

  /** `<name>"` with an optional `; filename="<filename>"` */
  function Disposition(s: Text): Option<(Text, Option<Text>)> {
    var name :- Quoted(s);
    if name.1 == [] then Some((name.0, None))
    else if FILENAME <= name.1 then
      var file :- Quoted(name.1[|FILENAME|..]);
      if file.1 == [] then Some((name.0, Some(file.0))) else None
    else None
  }

  function ReadPart(c: Text): Option<Part> {
    var h :- Headers(c);
    var line :- FindLine(h.0, DISPOSITION);
    var d :- Disposition(line);
    Some(Part(d.0, d.1, TypeOf(h.0), h.1))
  }

  /** The parts after a dash-boundary: the close, or a part that ends at the next delimiter. */
  function ReadParts(b: Text, s: Text): Option<seq<Part>>
    decreases |s|
  {
    if DASHES <= s then Some([])
    else if CRLF <= s then
      var i :- Find(s[2..], Delimiter(b));
      var part :- ReadPart(s[2..][..i]);
      var more :- ReadParts(b, s[2..][i + |Delimiter(b)|..]);
      Some([part] + more)
    else None
  }

  function Read(b: Text, s: Text): Option<seq<Part>> {
    if DASHES + b <= s then ReadParts(b, s[|DASHES + b|..]) else None
  }

  /** What an upload means. */
  function Upload(sid: Text, filename: Text, contentType: Option<Text>, bytes: Text): seq<Part> {
    [Part(Ascii("session_id"), None, None, sid), Part(Ascii("filename"), None, None, filename)]
    + TypePart(contentType) + [FilePart(filename, contentType, bytes)]
  }

  function TypePart(contentType: Option<Text>): seq<Part> {
    if contentType.Some? then [Part(Ascii("content_type"), None, None, contentType.value)] else []
  }

  function FilePart(filename: Text, contentType: Option<Text>, bytes: Text): Part {
    Part(Ascii("file"), Some(Safe(filename)), contentType, bytes)
  }

  // ----- no false delimiter straddles an edge

  ghost predicate NoCr(s: Text) {
    forall i :: 0 <= i < |s| ==> s[i] != CR
  }

  /** The only carriage return of a delimiter is its first byte. */
  ghost predicate OneCr(d: Text) {
    d != [] && d[0] == CR && forall i :: 0 < i < |d| ==> d[i] != CR
  }

  lemma {:induction false} HexHasNoCr(n: nat)
    ensures NoCr(Hex(n))
  {
    if n >= 16 {
      HexHasNoCr(n / 16);
    }
  }

  lemma NoCrConcat(a: Text, b: Text)
    requires NoCr(a) && NoCr(b)
    ensures NoCr(a + b)
  {
  }

  lemma StemHasNoCr()
    ensures NoCr(STEM)
  {
    assert 13 !in STEM;
  }

  lemma DispositionHasNoCr()
    ensures NoCr(DISPOSITION)
  {
    assert 13 !in DISPOSITION;
  }

  lemma FilenameHasNoCr()
    ensures NoCr(FILENAME)
  {
    assert 13 !in FILENAME;
  }

  lemma TypeHasNoCr()
    ensures NoCr(CONTENT_TYPE)
  {
    assert 13 !in CONTENT_TYPE;
  }

  lemma DelimiterHasOneCr(bytes: Text)
    requires |bytes| < SLICE_LIMIT
    ensures OneCr(Delimiter(BoundaryOf(bytes)))
  {
    var n := Orbit(FirstFree(bytes, 0));
    HexHasNoCr(n);
    StemHasNoCr();
    NoCrConcat(STEM, Hex(n));
    NoCrConcat([LF] + DASHES, Candidate(n));
    assert Delimiter(Candidate(n)) == [CR] + ([LF] + DASHES + Candidate(n));
  }

  /** Text followed by a delimiter is cut at its first delimiter, which never starts inside the text and ends outside it. */
  lemma CutAtDelimiter(c: Text, d: Text, tail: Text)
    requires OneCr(d)
    ensures !Contains(c, d) ==> Find(c + d + tail, d) == Some(|c|)
    ensures Contains(c, d) ==> Find(c + d + tail, d) == Find(c, d)
  {
    var s := c + d + tail;
    assert s[|c|] == d[0];
    forall i: nat | i < |c| ensures At(s, d, i) == At(c, d, i) {
      if i + |d| <= |c| {
        assert s[i..i + |d|] == c[i..i + |d|];
      } else if At(s, d, i) {
        AtElement(s, d, i, |c| - i);
      }
    }
    if Contains(c, d) {
      FindDecidesContains(c, d);
      FindSpec(c, d);
      FindIs(s, d, Find(c, d).value);
    } else {
      assert s[|c|..|c| + |d|] == d;
      FindIs(s, d, |c|);
    }
  }

  /** A line without a line break ends at the line break written after it. */
  lemma CutAtLineEnd(line: Text, rest: Text)
    requires !Contains(line, CRLF)
    ensures Find(line + CRLF + rest, CRLF) == Some(|line|)
  {
    assert OneCr(CRLF);
    CutAtDelimiter(line, CRLF, rest);
  }

  /** A delimiter begins with a line break and a dash. */
  lemma DelimiterStarts(s: Text, b: Text, i: nat)
    requires At(s, Delimiter(b), i)
    ensures At(s, CRLF, i) && i + 2 < |s| && s[i] == CR && s[i + 2] == DASH
  {
    var d := Delimiter(b);
    assert d[0] == CR && d[1] == LF && d[2] == DASH;
    AtElement(s, d, i, 0);
    AtElement(s, d, i, 1);
    AtElement(s, d, i, 2);
    assert s[i..i + 2] == CRLF;
  }

  lemma AtShifted(a: Text, rest: Text, pat: Text, i: nat)
    ensures At(a + rest, pat, |a| + i) <==> At(rest, pat, i)
  {
    if i + |pat| <= |rest| {
      assert (a + rest)[|a| + i..|a| + i + |pat|] == rest[i..i + |pat|];
    }
  }

  lemma DelimiterIsPast(line: Text, rest: Text, b: Text, i: nat)
    requires !Contains(line, CRLF) && rest != [] && rest[0] != DASH && At(line + CRLF + rest, Delimiter(b), i)
    ensures i >= |line| + 2
  {
    hide Contains, Find, Delimiter, At;
    var s := line + CRLF + rest;
    CutAtLineEnd(line, rest);
    FindSpec(s, CRLF);
    DelimiterStarts(s, b, i);
    assert s[|line|] == CR && s[|line| + 1] == LF && s[|line| + 2] == rest[0];
  }

  /** A line that is not followed by a dash holds no delimiter, so skipping it skips none. */
  lemma SkipLine(line: Text, rest: Text, b: Text)
    requires !Contains(line, CRLF) && rest != [] && rest[0] != DASH
    ensures Contains(line + CRLF + rest, Delimiter(b)) <==> Contains(rest, Delimiter(b))
  {
    hide Find, Delimiter;
    var head, d := line + CRLF, Delimiter(b);
    var s := head + rest;
    if Contains(s, d) {
      var i: nat :| i <= |s| && At(s, d, i);
      DelimiterIsPast(line, rest, b, i);
      AtShifted(head, rest, d, i - |head|);
    }
    if Contains(rest, d) {
      var i: nat :| i <= |rest| && At(rest, d, i);
      AtShifted(head, rest, d, i);
      assert At(s, d, |head| + i);
    }
  }

  // ----- the lines this writer writes

  lemma NoCrNoLineBreak(s: Text)
    requires NoCr(s)
    ensures !Contains(s, CRLF)
  {
    forall i: nat | i <= |s| ensures !At(s, CRLF, i) {
      if i + 2 <= |s| {
        assert s[i..i + 2][0] == s[i];
      }
    }
  }

  ghost predicate IsName(name: Text) {
    NoCr(name) && forall i :: 0 <= i < |name| ==> name[i] != QUOTE && name[i] != BACKSLASH
  }

  lemma SessionName()
    ensures IsName(Ascii("session_id"))
  {
  }

  lemma FilenameName()
    ensures IsName(Ascii("filename"))
  {
  }

  lemma TypeName()
    ensures IsName(Ascii("content_type"))
  {
  }

  lemma FileName()
    ensures IsName(Ascii("file"))
  {
  }

  lemma FieldLineIsLine(name: Text)
    requires IsName(name)
    ensures NoCr(FieldLine(name))
  {
    DispositionHasNoCr();
    NoCrConcat(DISPOSITION, name);
    NoCrConcat(DISPOSITION + name, [QUOTE]);
  }

  lemma SafeHasNoCr(s: Text)
    ensures NoCr(Safe(s)) && QUOTE !in Safe(s)
    ensures BACKSLASH in Safe(s) <==> BACKSLASH in s
  {
    if BACKSLASH in s {
      var i :| 0 <= i < |s| && s[i] == BACKSLASH;
      assert Safe(s)[i] == BACKSLASH;
    }
  }

  lemma FileLineIsLine(filename: Text)
    ensures NoCr(FileLine(filename))
  {
    FileName();
    FieldLineIsLine(Ascii("file"));
    SafeHasNoCr(filename);
    FilenameHasNoCr();
    NoCrConcat(FieldLine(Ascii("file")), FILENAME);
    NoCrConcat(FieldLine(Ascii("file")) + FILENAME, Safe(filename));
    NoCrConcat(FieldLine(Ascii("file")) + FILENAME + Safe(filename), [QUOTE]);
  }

  /** Text without quotes and backslashes is read as it stands. */
  lemma {:induction false} ReadQuoted(s: Text, rest: Text)
    requires QUOTE !in s && BACKSLASH !in s
    ensures Quoted(s + [QUOTE] + rest) == Some((s, rest))
  {
    var t := s + [QUOTE] + rest;
    if s == [] {
      assert t[1..] == rest;
    } else {
      ReadQuoted(s[1..], rest);
      assert t[0] == s[0] && s[0] in s && t[1..] == s[1..] + [QUOTE] + rest;
      assert [s[0]] + s[1..] == s && |t| >= 2;
    }
  }

  /** A backslash in it is dropped, or takes the closing quote into the text. */
  lemma {:induction false} ReadEscaped(s: Text, rest: Text)
    requires QUOTE !in s
    ensures var q := Quoted(s + [QUOTE] + rest);
            q.Some? && QUOTE !in q.value.0 ==> |q.value.0| <= |s| && (BACKSLASH in s ==> |q.value.0| < |s|)
    decreases |s|
  {
    var t := s + [QUOTE] + rest;
    if s != [] {
      assert t[0] == s[0] && s[0] in s;
      if s[0] != BACKSLASH {
        ReadEscaped(s[1..], rest);
        assert t[1..] == s[1..] + [QUOTE] + rest;
      } else if |s| > 1 {
        ReadEscaped(s[2..], rest);
        assert t[2..] == s[2..] + [QUOTE] + rest;
      } else {
        assert t[1] == QUOTE;
      }
    }
  }

  /** The file name a reader gets from its quoted form. */
  function NameRead(filename: Text): Option<Text> {
    var q :- Quoted(Safe(filename) + [QUOTE]);
    if q.1 == [] then Some(q.0) else None
  }

  /** It is the name written exactly when the name holds no backslash. */
  lemma NameIsRead(filename: Text)
    ensures NameRead(filename) == Some(Safe(filename)) <==> BACKSLASH !in filename
  {
    hide Quoted, Safe;
    var s := Safe(filename);
    SafeHasNoCr(filename);
    assert s + [QUOTE] + [] == s + [QUOTE];
    if BACKSLASH !in filename {
      ReadQuoted(s, []);
    } else {
      ReadEscaped(s, []);
    }
  }

  lemma ReadFieldLine(name: Text)
    requires IsName(name)
    ensures DISPOSITION <= FieldLine(name)
    ensures Disposition(FieldLine(name)[|DISPOSITION|..]) == Some((name, None))
  {
    NameHasNoQuote(name);
    assert FieldLine(name)[|DISPOSITION|..] == name + [QUOTE] + [];
    ReadQuoted(name, []);
  }

  lemma NameHasNoQuote(name: Text)
    requires IsName(name)
    ensures QUOTE !in name && BACKSLASH !in name
  {
  }

  lemma ReadFileLine(filename: Text)
    ensures DISPOSITION <= FileLine(filename)
    ensures var name := NameRead(filename);
            Disposition(FileLine(filename)[|DISPOSITION|..])
            == if name.Some? then Some((Ascii("file"), name)) else None
  {
    hide Ascii, Safe, Quoted;
    var after := FILENAME + (Safe(filename) + [QUOTE]);
    assert FileLine(filename) == DISPOSITION + (Ascii("file") + [QUOTE] + after);
    FileName();
    NameHasNoQuote(Ascii("file"));
    ReadQuoted(Ascii("file"), after);
    assert after[|FILENAME|..] == Safe(filename) + [QUOTE];
  }

  /** A disposition line is not a content-type line: they differ at their ninth byte. */
  lemma NotATypeLine(line: Text)
    requires DISPOSITION <= line
    ensures !(CONTENT_TYPE <= line)
  {
    assert DISPOSITION[8] == 68 && CONTENT_TYPE[8] == 84;
    assert line[8] == DISPOSITION[8];
  }

  // ----- header blocks

  lemma HeadersStep(line: Text, rest: Text)
    requires !Contains(line, CRLF) && line != []
    ensures Headers(line + CRLF + rest) ==
            match Headers(rest)
            case None => None
            case Some(h) => Some(([line] + h.0, h.1))
  {
    var c := line + CRLF + rest;
    CutAtLineEnd(line, rest);
    assert c[..|line|] == line && c[|line| + 2..] == rest;
  }

  lemma HeadersEnd(v: Text)
    ensures Headers(CRLF + v) == Some(([], v))
  {
    assert !Contains<byte>([], CRLF);
    CutAtLineEnd([], v);
    assert [] + CRLF + v == CRLF + v;
    assert (CRLF + v)[2..] == v;
  }

  lemma ReadOneLine(c: Text, line: Text, v: Text)
    requires Headers(c) == Some(([line], v)) && DISPOSITION <= line
    ensures ReadPart(c) ==
            match Disposition(line[|DISPOSITION|..])
            case None => None
            case Some(d) => Some(Part(d.0, d.1, None, v))
  {
    NotATypeLine(line);
    assert [line][1..] == [];
    assert FindLine([line], DISPOSITION) == Some(line[|DISPOSITION|..]);
    assert FindLine([line], CONTENT_TYPE) == None;
  }

  lemma ReadTwoLines(c: Text, line: Text, ct: Text, v: Text)
    requires Headers(c) == Some(([line, CONTENT_TYPE + ct], v)) && DISPOSITION <= line
    ensures ReadPart(c) ==
            match Disposition(line[|DISPOSITION|..])
            case None => None
            case Some(d) => Some(Part(d.0, d.1, Some(TrimBlanks(ct)), v))
  {
    NotATypeLine(line);
    assert [line, CONTENT_TYPE + ct][1..] == [CONTENT_TYPE + ct];
    assert (CONTENT_TYPE + ct)[|CONTENT_TYPE|..] == ct;
    assert FindLine([line, CONTENT_TYPE + ct], DISPOSITION) == Some(line[|DISPOSITION|..]);
    assert FindLine([line, CONTENT_TYPE + ct], CONTENT_TYPE) == Some(ct);
  }

  lemma ReadFieldChunk(name: Text, v: Text)
    requires IsName(name)
    ensures ReadPart(FieldChunk(name, v)) == Some(Part(name, None, None, v))
  {
    var line := FieldLine(name);
    FieldLineIsLine(name);
    NoCrNoLineBreak(line);
    HeadersEnd(v);
    HeadersStep(line, CRLF + v);
    assert [line] + [] == [line];
    ReadFieldLine(name);
    ReadOneLine(FieldChunk(name, v), line, v);
  }

  lemma TypeLineHolds(ct: Text)
    ensures Contains(CONTENT_TYPE + ct, CRLF) ==> Contains(ct, CRLF)
  {
    TypeHasNoCr();
    var s, n := CONTENT_TYPE + ct, |CONTENT_TYPE|;
    assert forall i :: 0 <= i < n ==> s[i] == CONTENT_TYPE[i];
    if Contains(s, CRLF) {
      var i: nat :| i <= |s| && At(s, CRLF, i);
      AtElement(s, CRLF, i, 0);
      AtShifted(CONTENT_TYPE, ct, CRLF, i - n);
    }
  }

  lemma TypeLine(ct: Text)
    requires !Contains(ct, CRLF)
    ensures !Contains(CONTENT_TYPE + ct, CRLF)
  {
    TypeLineHolds(ct);
  }

  /** A content type that a header carries unchanged: one line, with no white space around it. */
  ghost predicate IsTypeValue(ct: Text) {
    !Contains(ct, CRLF) && TrimBlanks(ct) == ct
  }

  /** Only the file name is read differently from how it was given. */
  lemma ReadFileChunk(filename: Text, contentType: Option<Text>, bytes: Text)
    requires contentType.Some? ==> IsTypeValue(contentType.value)
    ensures var name := NameRead(filename);
            ReadPart(FileChunk(filename, contentType, bytes))
            == if name.Some? then Some(Part(Ascii("file"), name, contentType, bytes)) else None
  {
    hide NameRead, Disposition, Headers, FileLine, TrimBlanks, ReadPart, Ascii, Contains;
    var line := FileLine(filename);
    FileLineIsLine(filename);
    NoCrNoLineBreak(line);
    LineIsNotEmpty(line);
    HeadersEnd(bytes);
    ReadFileLine(filename);
    match contentType
    case None =>
      HeadersStep(line, CRLF + bytes);
      assert [line] + [] == [line];
      ReadOneLine(FileChunk(filename, None, bytes), line, bytes);
    case Some(ct) =>
      var typeLine := CONTENT_TYPE + ct;
      TypeLine(ct);
      HeadersStep(typeLine, CRLF + bytes);
      HeadersStep(line, typeLine + CRLF + (CRLF + bytes));
      assert [typeLine] + [] == [typeLine] && [line] + [typeLine] == [line, typeLine];
      ReadTwoLines(FileChunk(filename, Some(ct), bytes), line, ct, bytes);
  }

  lemma LineIsNotEmpty(line: Text)
    ensures DISPOSITION <= line ==> line != []
  {
  }

  // ----- one part of a body

  /** No line of the value, not even its first, starts with the dash-boundary. */
  ghost predicate NoBoundaryLine(b: Text, v: Text) {
    !Contains(CRLF + v, Delimiter(b))
  }

  /** A part without a delimiter is read whole. */
  lemma ReadWhole(b: Text, c: Text, tail: Text)
    requires OneCr(Delimiter(b)) && !Contains(c, Delimiter(b))
    ensures ReadParts(b, CRLF + (c + Delimiter(b) + tail)) ==
            match ReadPart(c)
            case None => None
            case Some(part) =>
              match ReadParts(b, tail)
              case None => None
              case Some(more) => Some([part] + more)
  {
    var s := c + Delimiter(b) + tail;
    assert (CRLF + s)[2..] == s && (CRLF + s)[..2] == CRLF && (CRLF + s)[0] == CR;
    CutAtDelimiter(c, Delimiter(b), tail);
    assert s[..|c|] == c && s[|c| + |Delimiter(b)|..] == tail;
  }

  /** A part with a delimiter inside is cut there. */
  lemma ReadCut(b: Text, c: Text, tail: Text)
    requires OneCr(Delimiter(b)) && Contains(c, Delimiter(b))
    ensures Find(c, Delimiter(b)).Some?
    ensures var r := ReadParts(b, CRLF + (c + Delimiter(b) + tail));
            r.Some? ==> r.value != [] && ReadPart(c[..Find(c, Delimiter(b)).value]) == Some(r.value[0])
  {
    var s := c + Delimiter(b) + tail;
    assert (CRLF + s)[2..] == s && (CRLF + s)[..2] == CRLF && (CRLF + s)[0] == CR;
    FindDecidesContains(c, Delimiter(b));
    CutAtDelimiter(c, Delimiter(b), tail);
    var i := Find(c, Delimiter(b)).value;
    assert s[..i] == c[..i];
  }

  lemma FieldIsCleanWhenValueIs(b: Text, name: Text, v: Text)
    requires IsName(name)
    ensures Contains(FieldChunk(name, v), Delimiter(b)) <==> !NoBoundaryLine(b, v)
  {
    FieldLineIsLine(name);
    NoCrNoLineBreak(FieldLine(name));
    SkipLine(FieldLine(name), CRLF + v, b);
  }

  /** A truncated field never reads as the whole value. */
  lemma CutFieldDiffers(name: Text, v: Text, k: nat)
    requires IsName(name) && k < |CRLF + v|
    ensures var r := ReadPart(FieldLine(name) + CRLF + (CRLF + v)[..k]);
            r.Some? ==> |r.value.content| < |v|
  {
    var line, x := FieldLine(name), (CRLF + v)[..k];
    FieldLineIsLine(name);
    NoCrNoLineBreak(line);
    HeadersStep(line, x);
    if k < 2 {
      assert Find(x, CRLF).None?;
    } else {
      assert x == CRLF + v[..k - 2];
      HeadersEnd(v[..k - 2]);
    }
  }

  lemma FieldWhole(b: Text, name: Text, v: Text, tail: Text, rest: seq<Part>)
    requires OneCr(Delimiter(b)) && IsName(name) && !Contains(FieldChunk(name, v), Delimiter(b))
    ensures ReadParts(b, CRLF + (FieldChunk(name, v) + Delimiter(b) + tail)) == Some([Part(name, None, None, v)] + rest)
            <==> ReadParts(b, tail) == Some(rest)
  {
    hide ReadParts, ReadPart, FieldChunk, Delimiter, Contains, OneCr, IsName;
    var part := Part(name, None, None, v);
    ReadWhole(b, FieldChunk(name, v), tail);
    ReadFieldChunk(name, v);
    var more := ReadParts(b, tail);
    if more.Some? && [part] + more.value == [part] + rest {
      assert ([part] + more.value)[1..] == more.value && ([part] + rest)[1..] == rest;
    }
  }

  lemma FieldCut(b: Text, name: Text, v: Text, tail: Text, rest: seq<Part>)
    requires OneCr(Delimiter(b)) && IsName(name) && Contains(FieldChunk(name, v), Delimiter(b))
    ensures ReadParts(b, CRLF + (FieldChunk(name, v) + Delimiter(b) + tail)) != Some([Part(name, None, None, v)] + rest)
  {
    hide ReadParts, ReadPart, Delimiter, Contains, OneCr, IsName, Find, FieldLine;
    var c := FieldChunk(name, v);
    var part := Part(name, None, None, v);
    ReadCut(b, c, tail);
    FindSpec(c, Delimiter(b));
    var i := Find(c, Delimiter(b)).value;
    DelimiterAfterLine(b, name, v, i);
    var k := i - |FieldLine(name)| - 2;
    CutFieldDiffers(name, v, k);
    assert c[..i] == FieldLine(name) + CRLF + (CRLF + v)[..k];
    assert ([part] + rest)[0] == part;
  }

  /** A text field is recovered exactly when no line of its value is a boundary line. */
  lemma FieldIsRecovered(b: Text, name: Text, v: Text, tail: Text, rest: seq<Part>)
    requires OneCr(Delimiter(b)) && IsName(name)
    ensures ReadParts(b, CRLF + (FieldChunk(name, v) + Delimiter(b) + tail)) == Some([Part(name, None, None, v)] + rest)
            <==> NoBoundaryLine(b, v) && ReadParts(b, tail) == Some(rest)
  {
    hide *;
    FieldIsCleanWhenValueIs(b, name, v);
    if NoBoundaryLine(b, v) {
      FieldWhole(b, name, v, tail, rest);
    } else {
      FieldCut(b, name, v, tail, rest);
    }
  }

  lemma DelimiterAfterLine(b: Text, name: Text, v: Text, i: nat)
    requires IsName(name) && At(FieldChunk(name, v), Delimiter(b), i)
    ensures |FieldLine(name)| + 2 <= i < |FieldChunk(name, v)|
  {
    var line, c := FieldLine(name), FieldChunk(name, v);
    FieldLineIsLine(name);
    AtElement(c, Delimiter(b), i, 0);
    AtElement(c, Delimiter(b), i, 2);
    assert c[i] == CR && c[i + 2] == DASH;
    assert c[|line|] == CR && c[|line| + 1] == LF && c[|line| + 2] == CR;
    assert forall k :: 0 <= k < |line| ==> c[k] == line[k];
  }

  /** A boundary line holds the boundary. */
  lemma BoundaryLineHolds(b: Text, v: Text)
    ensures Contains(CRLF + v, Delimiter(b)) ==> Contains(v, b)
  {
    var s, d := CRLF + v, Delimiter(b);
    if Contains(s, d) {
      var i: nat :| i <= |s| && At(s, d, i);
      assert v[i + 2..i + 2 + |b|] == s[i..i + |d|][4..];
      assert At(v, b, i + 2);
    }
  }

  /** File bytes without the boundary hold no boundary line. */
  lemma BytesAreClean(b: Text, bytes: Text)
    requires !Contains(bytes, b)
    ensures NoBoundaryLine(b, bytes)
  {
    BoundaryLineHolds(b, bytes);
  }

  lemma FileIsClean(b: Text, filename: Text, contentType: Option<Text>, bytes: Text)
    requires NoBoundaryLine(b, bytes) && (contentType.Some? ==> !Contains(contentType.value, CRLF))
    ensures !Contains(FileChunk(filename, contentType, bytes), Delimiter(b))
  {
    var line := FileLine(filename);
    FileLineIsLine(filename);
    NoCrNoLineBreak(line);
    match contentType
    case None => SkipLine(line, CRLF + bytes, b);
    case Some(ct) =>
      TypeLine(ct);
      assert CONTENT_TYPE[0] == 67;
      SkipLine(line, CONTENT_TYPE + ct + CRLF + (CRLF + bytes), b);
      SkipLine(CONTENT_TYPE + ct, CRLF + bytes, b);
  }

  // ----- a content type read from a header line holds no line break

  lemma {:induction false} HeaderLinesAreLines(c: Text)
    ensures Headers(c).Some? ==> forall i :: 0 <= i < |Headers(c).value.0| ==> !Contains(Headers(c).value.0[i], CRLF)
    decreases |c|
  {
    hide Contains, Find;
    var i := Find(c, CRLF);
    if i.Some? && i.value > 0 {
      HeaderLinesAreLines(c[i.value + 2..]);
      NoneBeforeFirst(c, CRLF, i.value);
    }
  }

  lemma {:induction false} FoundLineIsLine(lines: seq<Text>, prefix: Text)
    requires forall i :: 0 <= i < |lines| ==> !Contains(lines[i], CRLF)
    ensures FindLine(lines, prefix).Some? ==> !Contains(FindLine(lines, prefix).value, CRLF)
  {
    hide Contains;
    if lines != [] {
      if prefix <= lines[0] {
        var v := lines[0][|prefix|..];
        assert lines[0] == prefix + v + [];
        PartContains(prefix, v, [], CRLF);
      } else {
        FoundLineIsLine(lines[1..], prefix);
      }
    }
  }

  lemma {:induction false} TrimIsInside(s: Text) returns (a: Text, z: Text)
    ensures s == a + TrimBlanks(s) + z
    decreases |s|
  {
    var r := TrimBlanks(s);
    if s != [] && IsBlank(s[0]) {
      var x, y := TrimIsInside(s[1..]);
      a, z := [s[0]] + x, y;
      PrependedPart(s, x, r, y);
    } else if s != [] && IsBlank(s[|s| - 1]) {
      var x, y := TrimIsInside(s[..|s| - 1]);
      a, z := x, y + [s[|s| - 1]];
      AppendedPart(s, x, r, y);
    } else {
      a, z := [], [];
    }
  }

  lemma PrependedPart(s: Text, x: Text, r: Text, y: Text)
    requires s != [] && s[1..] == x + r + y
    ensures s == [s[0]] + x + r + y
  {
    hide *;
    assert s == [s[0]] + s[1..];
    assert [s[0]] + (x + r + y) == [s[0]] + x + r + y;
  }

  lemma AppendedPart(s: Text, x: Text, r: Text, y: Text)
    requires s != [] && s[..|s| - 1] == x + r + y
    ensures s == x + r + (y + [s[|s| - 1]])
  {
    hide *;
    assert s == s[..|s| - 1] + [s[|s| - 1]];
    assert (x + r + y) + [s[|s| - 1]] == x + r + (y + [s[|s| - 1]]);
  }

  lemma TrimmedIsTypeValue(s: Text)
    requires !Contains(s, CRLF)
    ensures IsTypeValue(TrimBlanks(s))
  {
    hide Contains;
    var a, z := TrimIsInside(s);
    PartContains(a, TrimBlanks(s), z, CRLF);
  }

  lemma ReadTypeIsValue(c: Text)
    ensures ReadPart(c).Some? && ReadPart(c).value.contentType.Some? ==> IsTypeValue(ReadPart(c).value.contentType.value)
  {
    hide Contains, TrimBlanks, IsTypeValue, Disposition, Headers, FindLine;
    HeaderLinesAreLines(c);
    if Headers(c).Some? {
      var lines := Headers(c).value.0;
      FoundLineIsLine(lines, CONTENT_TYPE);
      if FindLine(lines, CONTENT_TYPE).Some? {
        TrimmedIsTypeValue(FindLine(lines, CONTENT_TYPE).value);
      }
    }
  }

  /** A last chunk without a delimiter is read exactly as the part it reads as. */
  lemma ReadLast(b: Text, c: Text, part: Part)
    requires OneCr(Delimiter(b)) && !Contains(c, Delimiter(b))
    ensures ReadParts(b, Tail(b, [c])) == Some([part]) <==> ReadPart(c) == Some(part)
  {
    hide ReadPart, Contains, OneCr, Delimiter;
    TailOfOne(b, c);
    ReadClose(b);
    ReadWhole(b, c, DASHES + CRLF);
    var r := ReadPart(c);
    if r.Some? {
      assert [r.value] + [] == [r.value] && [r.value][0] == r.value && [part][0] == part;
    }
  }

  lemma ReadClose(b: Text)
    ensures ReadParts(b, DASHES + CRLF) == Some([])
  {
    assert (DASHES + CRLF)[..2] == DASHES;
  }

  /** Whatever comes of it, a content type read from a last chunk is one line without white space around it. */
  lemma ReadLastType(b: Text, c: Text, part: Part)
    requires OneCr(Delimiter(b)) && ReadParts(b, Tail(b, [c])) == Some([part])
    ensures part.contentType.Some? ==> IsTypeValue(part.contentType.value)
  {
    hide ReadPart, IsTypeValue, Contains, OneCr, Delimiter, Find;
    TailOfOne(b, c);
    assert [part][0] == part;
    if Contains(c, Delimiter(b)) {
      ReadCut(b, c, DASHES + CRLF);
      ReadTypeIsValue(c[..Find(c, Delimiter(b)).value]);
    } else {
      ReadLast(b, c, part);
      ReadTypeIsValue(c);
    }
  }

  /** What a caller can check of the file part: no backslash in the name, and a content type a header carries. */
  ghost predicate FileSendable(filename: Text, contentType: Option<Text>) {
    BACKSLASH !in filename && (contentType.Some? ==> IsTypeValue(contentType.value))
  }

  /** The file part is recovered exactly when its name holds no backslash and its content type, if any, is such a value. */
  lemma FileIsRecovered(b: Text, filename: Text, contentType: Option<Text>, bytes: Text)
    requires OneCr(Delimiter(b)) && NoBoundaryLine(b, bytes)
    ensures ReadParts(b, Tail(b, [FileChunk(filename, contentType, bytes)])) == Some([FilePart(filename, contentType, bytes)])
            <==> FileSendable(filename, contentType)
  {
    hide ReadPart, ReadParts, TrimBlanks, Contains, OneCr, Delimiter, NameRead, FileChunk, Ascii, Tail;
    var c, part := FileChunk(filename, contentType, bytes), FilePart(filename, contentType, bytes);
    if contentType.Some? ==> IsTypeValue(contentType.value) {
      FileIsClean(b, filename, contentType, bytes);
      ReadFileChunk(filename, contentType, bytes);
      NameIsRead(filename);
      ReadLast(b, c, part);
    } else if ReadParts(b, Tail(b, [c])) == Some([part]) {
      ReadLastType(b, c, part);
    }
  }

  lemma TailOfOne(b: Text, c: Text)
    ensures Tail(b, [c]) == CRLF + (c + Delimiter(b) + (DASHES + CRLF))
  {
    assert [c][1..] == [];
  }

  lemma TailStep(b: Text, c: Text, cs: seq<Text>)
    ensures Tail(b, [c] + cs) == CRLF + (c + Delimiter(b) + Tail(b, cs))
  {
    assert ([c] + cs)[1..] == cs;
  }

  // ----- the whole body

  lemma ReadEncoded(b: Text, chunks: seq<Text>)
    ensures Read(b, Encode(b, chunks)) == ReadParts(b, Tail(b, chunks))
  {
    var s := Encode(b, chunks);
    assert s[..|DASHES + b|] == DASHES + b && s[|DASHES + b|..] == Tail(b, chunks);
  }

  /** What a caller can check: no text value holds a boundary line, and the file part can be sent. */
  ghost predicate Sendable(b: Text, sid: Text, filename: Text, contentType: Option<Text>) {
    && NoBoundaryLine(b, sid) && NoBoundaryLine(b, filename)
    && (contentType.Some? ==> NoBoundaryLine(b, contentType.value))
    && FileSendable(filename, contentType)
  }

  /** A text field in front of other parts. */
  lemma FieldInFront(b: Text, name: Text, v: Text, chunks: seq<Text>, rest: seq<Part>)
    requires OneCr(Delimiter(b)) && IsName(name)
    ensures ReadParts(b, Tail(b, [FieldChunk(name, v)] + chunks)) == Some([Part(name, None, None, v)] + rest)
            <==> NoBoundaryLine(b, v) && ReadParts(b, Tail(b, chunks)) == Some(rest)
  {
    TailStep(b, FieldChunk(name, v), chunks);
    FieldIsRecovered(b, name, v, Tail(b, chunks), rest);
  }

  /** The two text fields in front of the others. */
  lemma TextsInFront(b: Text, sid: Text, filename: Text, chunks: seq<Text>, rest: seq<Part>)
    requires OneCr(Delimiter(b))
    ensures ReadParts(b, Tail(b, [FieldChunk(Ascii("session_id"), sid), FieldChunk(Ascii("filename"), filename)] + chunks))
            == Some([Part(Ascii("session_id"), None, None, sid), Part(Ascii("filename"), None, None, filename)] + rest)
            <==> NoBoundaryLine(b, sid) && NoBoundaryLine(b, filename) && ReadParts(b, Tail(b, chunks)) == Some(rest)
  {
    SessionName();
    FilenameName();
    var c1, c2 := FieldChunk(Ascii("session_id"), sid), FieldChunk(Ascii("filename"), filename);
    var p1, p2 := Part(Ascii("session_id"), None, None, sid), Part(Ascii("filename"), None, None, filename);
    assert [c1, c2] + chunks == [c1] + ([c2] + chunks);
    assert [p1, p2] + rest == [p1] + ([p2] + rest);
    FieldInFront(b, Ascii("filename"), filename, chunks, rest);
    FieldInFront(b, Ascii("session_id"), sid, [c2] + chunks, [p2] + rest);
  }

  /** The reader recovers session, file name, content type and file bytes exactly when the texts are sendable. */
  lemma UploadIsRecovered(sid: Text, filename: Text, contentType: Option<Text>, bytes: Text)
    requires |bytes| < SLICE_LIMIT
    ensures var b := BoundaryOf(bytes);
            Read(b, Encode(b, Chunks(sid, filename, contentType, bytes))) == Some(Upload(sid, filename, contentType, bytes))
            <==> Sendable(b, sid, filename, contentType)
  {
    var b := BoundaryOf(bytes);
    DelimiterHasOneCr(bytes);
    BytesAreClean(b, bytes);
    FileIsRecovered(b, filename, contentType, bytes);
    UploadIsRead(b, sid, filename, contentType, bytes);
  }

  /** The content-type field, if any, in front of the last part. */
  lemma TypeInFront(b: Text, contentType: Option<Text>, c: Text, p: Part)
    requires OneCr(Delimiter(b))
    ensures ReadParts(b, Tail(b, TypeChunk(contentType) + [c])) == Some(TypePart(contentType) + [p])
            <==> (contentType.Some? ==> NoBoundaryLine(b, contentType.value)) && ReadParts(b, Tail(b, [c])) == Some([p])
  {
    if contentType.Some? {
      TypeName();
      FieldInFront(b, Ascii("content_type"), contentType.value, [c], [p]);
    } else {
      assert TypeChunk(contentType) + [c] == [c] && TypePart(contentType) + [p] == [p];
    }
  }

  lemma UploadIsRead(b: Text, sid: Text, filename: Text, contentType: Option<Text>, bytes: Text)
    requires OneCr(Delimiter(b))
    requires ReadParts(b, Tail(b, [FileChunk(filename, contentType, bytes)])) == Some([FilePart(filename, contentType, bytes)])
             <==> FileSendable(filename, contentType)
    ensures Read(b, Encode(b, Chunks(sid, filename, contentType, bytes))) == Some(Upload(sid, filename, contentType, bytes))
            <==> Sendable(b, sid, filename, contentType)
  {
    var c, p := FileChunk(filename, contentType, bytes), FilePart(filename, contentType, bytes);
    ReadEncoded(b, Chunks(sid, filename, contentType, bytes));
    TypeInFront(b, contentType, c, p);
    TextsInFront(b, sid, filename, TypeChunk(contentType) + [c], TypePart(contentType) + [p]);
    ChunksRegrouped(sid, filename, contentType, bytes);
  }

  lemma ChunksRegrouped(sid: Text, filename: Text, contentType: Option<Text>, bytes: Text)
    ensures Chunks(sid, filename, contentType, bytes)
         == [FieldChunk(Ascii("session_id"), sid), FieldChunk(Ascii("filename"), filename)]
            + (TypeChunk(contentType) + [FileChunk(filename, contentType, bytes)])
    ensures Upload(sid, filename, contentType, bytes)
         == [Part(Ascii("session_id"), None, None, sid), Part(Ascii("filename"), None, None, filename)]
            + (TypePart(contentType) + [FilePart(filename, contentType, bytes)])
  {
  }

  lemma TextWithoutBoundary(b: Text, v: Text)
    requires !Contains(v, b)
    ensures NoBoundaryLine(b, v)
  {
    BytesAreClean(b, v);
  }

  /** In particular whenever no text value holds the boundary, the file name holds no backslash, and the content type is
      one line without white space around it. */
  lemma UploadWithoutBoundaryIsRecovered(sid: Text, filename: Text, contentType: Option<Text>, bytes: Text)
    requires |bytes| < SLICE_LIMIT
    requires var b := BoundaryOf(bytes);
             && !Contains(sid, b) && !Contains(filename, b)
             && BACKSLASH !in filename
             && (contentType.Some? ==> !Contains(contentType.value, b) && IsTypeValue(contentType.value))
    ensures var b := BoundaryOf(bytes);
            Read(b, Encode(b, Chunks(sid, filename, contentType, bytes))) == Some(Upload(sid, filename, contentType, bytes))
  {
    var b := BoundaryOf(bytes);
    TextWithoutBoundary(b, sid);
    TextWithoutBoundary(b, filename);
    if contentType.Some? {
      TextWithoutBoundary(b, contentType.value);
    }
    UploadIsRecovered(sid, filename, contentType, bytes);
  }

  /** The search looks at the file bytes only: a session id that is the boundary line itself is never recovered. */
  lemma TextsCanCollide(filename: Text, contentType: Option<Text>, bytes: Text)
    requires |bytes| < SLICE_LIMIT
    ensures var b := BoundaryOf(bytes);
            var sid := DASHES + b;
            Read(b, Encode(b, Chunks(sid, filename, contentType, bytes))) != Some(Upload(sid, filename, contentType, bytes))
  {
    var b := BoundaryOf(bytes);
    var sid := DASHES + b;
    UploadIsRecovered(sid, filename, contentType, bytes);
    assert CRLF + sid == Delimiter(b);
    assert At(CRLF + sid, Delimiter(b), 0);
  }

  /** A file whose name is one backslash is lost: the backslash quotes the closing quote, so the name never ends. Nothing
      else is wrong with it. */
  lemma BackslashIsLost(sid: Text, contentType: Option<Text>, bytes: Text)
    requires |bytes| < SLICE_LIMIT
    ensures Disposition(FileLine([BACKSLASH])[|DISPOSITION|..]) == None
    ensures var b := BoundaryOf(bytes);
            && NoBoundaryLine(b, [BACKSLASH])
            && Read(b, Encode(b, Chunks(sid, [BACKSLASH], contentType, bytes)))
            != Some(Upload(sid, [BACKSLASH], contentType, bytes))
  {
    hide Read, Encode, Chunks, Upload, Disposition, FileLine, BoundaryOf, Delimiter, Ascii;
    ReadFileLine([BACKSLASH]);
    NeverClosed();
    ShortIsClean(BoundaryOf(bytes));
    UploadIsRecovered(sid, [BACKSLASH], contentType, bytes);
  }

  lemma NeverClosed()
    ensures NameRead([BACKSLASH]) == None
  {
    var t: Text := [BACKSLASH, QUOTE];
    assert Safe([BACKSLASH]) + [QUOTE] == t;
    assert |t| == 2 && t[2..] == [] && Quoted(t[2..]) == None;
    assert Quoted(t) == None;
  }

  lemma ShortIsClean(b: Text)
    ensures NoBoundaryLine(b, [BACKSLASH])
  {
    var s, d := CRLF + [BACKSLASH], Delimiter(b);
    assert |d| > |s|;
  }
}
