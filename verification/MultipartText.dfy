/** The upload body as text: what stands on the wire, spelled out between the values. */
module MultipartText {
  import opened Wrappers
  import opened Bytes
  import opened Boundary
  import opened Multipart

  /** A byte is the code point of its character. */
  lemma AsciiMeans(s: string)
    requires forall i :: 0 <= i < |s| ==> (s[i] as int) < 128
    ensures |Ascii(s)| == |s| && forall i :: 0 <= i < |s| ==> (Ascii(s)[i] as int) == (s[i] as int)
  {
  }

  lemma AsciiConcat(s: string, t: string)
    ensures Ascii(s + t) == Ascii(s) + Ascii(t)
  {
  }

  const FIELD_START: string := "\r\nContent-Disposition: form-data; name=\""
  const FIELD_END: string := "\"\r\n\r\n"
  const FILE_START: string := FIELD_START + "file\"; filename=\""
  const TYPE_START: string := "\"\r\nContent-Type: "

  function FieldText(b: Text, name: string, value: Text): Text {
    Ascii("--") + b + Ascii(FIELD_START) + Ascii(name) + Ascii(FIELD_END) + value + Ascii("\r\n")
  }

  /** The header of the file part has a content type only where one is known. */
  function FileText(b: Text, filename: Text, contentType: Option<Text>, bytes: Text): Text {
    Ascii("--") + b + Ascii(FILE_START) + Safe(filename)
    + (if contentType.Some? then Ascii(TYPE_START) + contentType.value + Ascii("\r\n\r\n") else Ascii(FIELD_END))
    + bytes + Ascii("\r\n")
  }

  function BodyText(b: Text, sid: Text, filename: Text, contentType: Option<Text>, bytes: Text): Text {
    FieldText(b, "session_id", sid) + FieldText(b, "filename", filename)
    + (if contentType.Some? then FieldText(b, "content_type", contentType.value) else [])
    + FileText(b, filename, contentType, bytes) + Ascii("--") + b + Ascii("--\r\n")
  }

  lemma Marks()
    ensures CRLF == Ascii("\r\n") && DASHES == Ascii("--") && [QUOTE] == Ascii("\"")
    ensures [BACKSLASH] == Ascii("\\") && [SPACE, TAB] == Ascii(" \t") && [UNDERSCORE] == Ascii("_")
  {
  }

  lemma FieldSpelled(b: Text, name: string, value: Text)
    ensures Block(b, FieldChunk(Ascii(name), value)) == FieldText(b, name, value)
  {
    hide Ascii;
    Marks();
    AsciiConcat("\r\n", "Content-Disposition: form-data; name=\"");
    AsciiConcat("\"", "\r\n\r\n");
    AsciiConcat("\r\n", "\r\n");
    assert FIELD_START == "\r\n" + "Content-Disposition: form-data; name=\"";
    assert FIELD_END == "\"" + "\r\n\r\n" && "\r\n\r\n" == "\r\n" + "\r\n";
    RegroupField(DASHES + b, CRLF, DISPOSITION, Ascii(name), [QUOTE], value);
  }

  lemma RegroupField(head: Text, e: Text, d: Text, name: Text, q: Text, value: Text)
    ensures head + (e + (d + name + q + e + (e + value) + e)) == head + (e + d) + name + (q + (e + e)) + value + e
  {
    assert e + (d + name + q + e + (e + value) + e) == (e + d) + name + (q + (e + e)) + value + e;
  }

  lemma FileSpelled(b: Text, filename: Text, contentType: Option<Text>, bytes: Text)
    ensures Block(b, FileChunk(filename, contentType, bytes)) == FileText(b, filename, contentType, bytes)
  {
    hide Ascii, Safe;
    Marks();
    FileStart();
    AsciiConcat("\"", "\r\n\r\n");
    AsciiConcat("\r\n", "\r\n");
    assert FIELD_END == "\"" + "\r\n\r\n" && "\r\n\r\n" == "\r\n" + "\r\n";
    TypeStart();
    if contentType.Some? {
      RegroupTyped(DASHES + b, CRLF, DISPOSITION + Ascii("file") + [QUOTE] + FILENAME, Safe(filename), [QUOTE],
                   CONTENT_TYPE, contentType.value, bytes);
    } else {
      RegroupPlain(DASHES + b, CRLF, DISPOSITION + Ascii("file") + [QUOTE] + FILENAME, Safe(filename), [QUOTE], bytes);
    }
  }

  lemma FileStart()
    ensures Ascii(FILE_START) == CRLF + (DISPOSITION + Ascii("file") + [QUOTE] + FILENAME)
  {
    hide Ascii;
    Marks();
    AsciiConcat(FIELD_START, "file");
    AsciiConcat(FIELD_START + "file", "\"");
    AsciiConcat(FIELD_START + "file" + "\"", "; filename=\"");
    AsciiConcat("\r\n", "Content-Disposition: form-data; name=\"");
    assert FIELD_START == "\r\n" + "Content-Disposition: form-data; name=\"";
    FileStartLetters();
  }

  lemma FileStartLetters()
    ensures FILE_START == FIELD_START + "file" + "\"" + "; filename=\""
  {
    assert "file\"; filename=\"" == "file" + "\"" + "; filename=\"";
    assert FIELD_START + ("file" + "\"" + "; filename=\"") == FIELD_START + "file" + "\"" + "; filename=\"";
  }

  lemma TypeStart()
    ensures Ascii(TYPE_START) == [QUOTE] + CRLF + CONTENT_TYPE
  {
    hide Ascii;
    Marks();
    AsciiConcat("\"" + "\r\n", "Content-Type: ");
    AsciiConcat("\"", "\r\n");
    assert TYPE_START == "\"" + "\r\n" + "Content-Type: ";
  }

  lemma RegroupPlain(head: Text, e: Text, start: Text, name: Text, q: Text, bytes: Text)
    ensures head + (e + (start + name + q + e + (e + bytes) + e)) == head + (e + start) + name + (q + (e + e)) + bytes + e
  {
    RegroupField(head, e, start, name, q, bytes);
  }

  lemma RegroupTyped(head: Text, e: Text, start: Text, name: Text, q: Text, t: Text, ct: Text, bytes: Text)
    ensures head + (e + (start + name + q + e + (t + ct + e + (e + bytes)) + e))
         == head + (e + start) + name + (q + e + t + ct + (e + e)) + bytes + e
  {
    assert start + name + q + e + (t + ct + e + (e + bytes)) + e
        == start + name + (q + e + t + ct + (e + e)) + bytes + e;
    assert e + (start + name + (q + e + t + ct + (e + e)) + bytes + e)
        == (e + start) + name + (q + e + t + ct + (e + e)) + bytes + e;
  }

  lemma PartsSpelled(b: Text, sid: Text, filename: Text, contentType: Option<Text>, file: Text)
    ensures Blocks(b, [FieldChunk(Ascii("session_id"), sid), FieldChunk(Ascii("filename"), filename)]
                      + TypeChunk(contentType) + [file])
         == FieldText(b, "session_id", sid) + FieldText(b, "filename", filename)
            + (if contentType.Some? then FieldText(b, "content_type", contentType.value) else []) + Block(b, file)
  {
    hide Ascii, Block, FieldChunk, FieldText;
    var c1, c2 := FieldChunk(Ascii("session_id"), sid), FieldChunk(Ascii("filename"), filename);
    FieldSpelled(b, "session_id", sid);
    FieldSpelled(b, "filename", filename);
    BlocksStep(b, [], c1);
    BlocksStep(b, [c1], c2);
    assert [] + [c1] == [c1] && [c1] + [c2] == [c1, c2];
    if contentType.Some? {
      var c3 := FieldChunk(Ascii("content_type"), contentType.value);
      FieldSpelled(b, "content_type", contentType.value);
      BlocksStep(b, [c1, c2], c3);
      BlocksStep(b, [c1, c2] + [c3], file);
    } else {
      assert [c1, c2] + TypeChunk(contentType) == [c1, c2];
      BlocksStep(b, [c1, c2], file);
    }
  }

  /** The whole body, byte for byte. */
  lemma BodySpelled(b: Text, sid: Text, filename: Text, contentType: Option<Text>, bytes: Text)
    ensures Encode(b, Chunks(sid, filename, contentType, bytes)) == BodyText(b, sid, filename, contentType, bytes)
  {
    hide Ascii, Block, Blocks, FieldChunk, FileChunk, FieldText, FileText, Tail;
    var file := FileChunk(filename, contentType, bytes);
    var chunks := Chunks(sid, filename, contentType, bytes);
    BlocksEncode(b, chunks, []);
    assert chunks + [] == chunks;
    PartsSpelled(b, sid, filename, contentType, file);
    FileSpelled(b, filename, contentType, bytes);
    Close();
    TailIsClose(b);
    Reassociate(Blocks(b, chunks), DASHES, b, DASHES + CRLF);
  }

  lemma Reassociate(s: Text, d: Text, b: Text, e: Text)
    ensures s + (d + b + e) == s + d + b + e
  {
  }

  lemma TailIsClose(b: Text)
    ensures Tail(b, []) == DASHES + CRLF
  {
  }

  lemma Close()
    ensures DASHES + CRLF == Ascii("--\r\n") && DASHES == Ascii("--")
  {
  }

  // ----- the boundary's number

  /** The value of a lower-case hexadecimal digit. */
  function DigitValue(c: byte): Option<nat> {
    if 48 <= c <= 57 then Some(c as nat - 48)
    else if 97 <= c <= 102 then Some(c as nat - 87)
    else None
  }

  function HexValue(h: seq<byte>): Option<nat> {
    if h == [] then Some(0)
    else
      var more :- HexValue(h[..|h| - 1]);
      var d :- DigitValue(h[|h| - 1]);
      Some(16 * more + d)
  }

  /** Lower-case digits that mean the number, without a needless zero in front. */
  lemma {:induction false} HexMeans(n: nat)
    ensures HexValue(Hex(n)) == Some(n) && (|Hex(n)| > 1 ==> Hex(n)[0] != 48) && (n > 0 ==> Hex(n)[0] != 48)
  {
    if n >= 16 {
      HexMeans(n / 16);
      var h := Hex(n);
      assert h[..|h| - 1] == Hex(n / 16) && h[|h| - 1] == Digit(n % 16) && h[0] == Hex(n / 16)[0];
    } else {
      assert [Digit(n)][..0] == [];
    }
  }

  /** Every boundary is the fixed stem and a number so spelled; the first one tried is this text. */
  lemma FirstCandidate()
    ensures Candidate(Orbit(0)) == Ascii("----abstractgateway-console-5a17c0de")
  {
    hide Ascii;
    AsciiConcat("----abstractgateway-console-", "5a17c0de");
    assert "----abstractgateway-console-5a17c0de" == "----abstractgateway-console-" + "5a17c0de";
    SeedSpelled();
  }

  lemma SeedSpelled()
    ensures Hex(0x5a17_c0de) == Ascii("5a17c0de")
  {
    hide Hex, Ascii;
    SeedStarts();
    HexStep(0x5a17, 12);
    HexStep(0x5a17_c, 0);
    HexStep(0x5a17_c0, 13);
    HexStep(0x5a17_c0d, 14);
    SeedBytes();
  }

  lemma SeedStarts()
    ensures Hex(0x5a17) == [53, 97, 49, 55]
  {
    hide Hex;
    HexOfFive();
    HexStep(5, 10);
    HexStep(0x5a, 1);
    HexStep(0x5a1, 7);
  }

  lemma HexOfFive()
    ensures Hex(5) == [53]
  {
  }

  lemma HexStep(n: nat, d: nat)
    requires n > 0 && d < 16
    ensures Hex(16 * n + d) == Hex(n) + [Digit(d)]
  {
  }

  lemma SeedBytes()
    ensures Ascii("5a17c0de") == [53, 97, 49, 55] + [99] + [48] + [100] + [101]
  {
  }
}
