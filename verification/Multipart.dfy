/** The multipart/form-data body of console-tui/src/api_sandbox_docs.rs, and a reader after RFC 2046 and RFC 7578. */
module Multipart {
  import opened Wrappers
  import opened Bytes
  import opened Boundary
  import opened BoundarySearch

  type Text = seq<byte>

  const CRLF: Text := [CR, LF]
  const DASHES: Text := [DASH, DASH]

  const DISPOSITION: Text := Ascii("Content-Disposition: form-data; name=\"")
  const FILENAME: Text := Ascii("; filename=\"")
  const CONTENT_TYPE: Text := Ascii("Content-Type: ")

  // ----- the writer

  /** Drop the characters that would end a quoted header value. */
  function Safe(s: Text): (r: Text)
    ensures |r| == |s|
    ensures forall i :: 0 <= i < |s| ==>
      r[i] == if s[i] == 34 || s[i] == 13 || s[i] == 10 then 95 else s[i]
  {
    seq(|s|, i requires 0 <= i < |s| =>
      if s[i] == QUOTE || s[i] == CR || s[i] == LF then UNDERSCORE else s[i])
  }

  /** The line that separates parts, with the line break before it. */
  function Delimiter(b: Text): Text {
    CRLF + DASHES + b
  }

  function FieldLine(name: Text): Text {
    DISPOSITION + name + [QUOTE]
  }

  function FileLine(filename: Text): Text {
    FieldLine(Ascii("file")) + FILENAME + Safe(filename) + [QUOTE]
  }

  function FieldChunk(name: Text, value: Text): Text {
    FieldLine(name) + CRLF + (CRLF + value)
  }

  function FileChunk(filename: Text, contentType: Option<Text>, bytes: Text): Text {
    FileLine(filename) + CRLF +
    match contentType
    case None => CRLF + bytes
    case Some(ct) => CONTENT_TYPE + ct + CRLF + (CRLF + bytes)
  }

  /** What follows a dash-boundary when these chunks are still to come. */
  function Tail(b: Text, chunks: seq<Text>): Text {
    if chunks == [] then DASHES + CRLF
    else CRLF + (chunks[0] + Delimiter(b) + Tail(b, chunks[1..]))
  }

  function Encode(b: Text, chunks: seq<Text>): Text {
    DASHES + b + Tail(b, chunks)
  }

  function TypeChunk(contentType: Option<Text>): seq<Text> {
    if contentType.Some? then [FieldChunk(Ascii("content_type"), contentType.value)] else []
  }

  function Chunks(sid: Text, filename: Text, contentType: Option<Text>, bytes: Text): seq<Text> {
    [FieldChunk(Ascii("session_id"), sid), FieldChunk(Ascii("filename"), filename)]
    + TypeChunk(contentType) + [FileChunk(filename, contentType, bytes)]
  }

  /** One part as it is written: its boundary line, the chunk, and the line break that ends it. */
  function Block(b: Text, chunk: Text): Text {
    DASHES + b + (CRLF + (chunk + CRLF))
  }

  function Blocks(b: Text, chunks: seq<Text>): Text {
    if chunks == [] then [] else Blocks(b, chunks[..|chunks| - 1]) + Block(b, chunks[|chunks| - 1])
  }

  // ----- the code

  /** The `field` closure: appends one text part to the buffer. */
  method Field(out: Text, b: Text, name: Text, value: Text) returns (r: Text)
    ensures r == out + Block(b, FieldChunk(name, value))
  {
    r := out + (DASHES + b + CRLF + DISPOSITION + name + [QUOTE] + CRLF + CRLF + value + CRLF);
    assert DASHES + b + CRLF + DISPOSITION + name + [QUOTE] + CRLF + CRLF + value + CRLF
        == Block(b, FieldChunk(name, value));
  }

  /** The file part up to its content. */
  method FileHeader(b: Text, filename: Text, contentType: Option<Text>, ghost bytes: Text) returns (r: Text)
    ensures r + bytes + CRLF == Block(b, FileChunk(filename, contentType, bytes))
  {
    var partType := if contentType.Some? then CONTENT_TYPE + contentType.value + CRLF else [];
    r := DASHES + b + CRLF + DISPOSITION + Ascii("file") + [QUOTE] + FILENAME + Safe(filename) + [QUOTE]
      + CRLF + partType + CRLF;
    ghost var line := FileLine(filename);
    assert r == DASHES + b + CRLF + line + CRLF + partType + CRLF by {
      assert DISPOSITION + Ascii("file") + [QUOTE] + FILENAME + Safe(filename) + [QUOTE] == line;
      Regroup7(DASHES + b + CRLF, DISPOSITION, Ascii("file"), [QUOTE], FILENAME, Safe(filename), [QUOTE]);
    }
    assert FileChunk(filename, contentType, bytes) == line + CRLF + (partType + CRLF + bytes) by {
      if contentType.Some? {
        assert CONTENT_TYPE + contentType.value + CRLF + (CRLF + bytes) == partType + CRLF + bytes;
      } else {
        assert CRLF + bytes == partType + CRLF + bytes;
      }
    }
    RegroupFile(b, line, partType, bytes);
  }

  lemma Regroup7(a: Text, b: Text, c: Text, d: Text, e: Text, f: Text, g: Text)
    ensures a + b + c + d + e + f + g == a + (b + c + d + e + f + g)
  {
    assert a + b + c + d == a + (b + c + d);
    assert a + (b + c + d) + e + f + g == a + (b + c + d + e + f + g);
  }

  lemma RegroupFile(b: Text, line: Text, partType: Text, bytes: Text)
    ensures (DASHES + b + CRLF + line + CRLF + partType + CRLF) + bytes + CRLF
         == Block(b, line + CRLF + (partType + CRLF + bytes))
  {
    var rest := partType + CRLF + bytes;
    assert (DASHES + b + CRLF + line + CRLF + partType + CRLF) + bytes == DASHES + b + CRLF + line + CRLF + rest;
    assert DASHES + b + CRLF + line + CRLF + rest == DASHES + b + (CRLF + (line + CRLF + rest));
  }

  /** The parts before the file. */
  method Fields(b: Text, sid: Text, filename: Text, contentType: Option<Text>) returns (out: Text)
    ensures out == Blocks(b, [FieldChunk(Ascii("session_id"), sid), FieldChunk(Ascii("filename"), filename)]
                             + TypeChunk(contentType))
  {
    ghost var c1 := FieldChunk(Ascii("session_id"), sid);
    ghost var c2 := FieldChunk(Ascii("filename"), filename);
    out := [];
    out := Field(out, b, Ascii("session_id"), sid);
    BlocksStep(b, [], c1);
    assert [] + [c1] == [c1] && [c1] + [c2] == [c1, c2];
    out := Field(out, b, Ascii("filename"), filename);
    BlocksStep(b, [c1], c2);
    if contentType.Some? {
      out := Field(out, b, Ascii("content_type"), contentType.value);
      BlocksStep(b, [c1, c2], FieldChunk(Ascii("content_type"), contentType.value));
    } else {
      assert [c1, c2] + TypeChunk(contentType) == [c1, c2];
    }
  }

  method MultipartBody(sid: Text, filename: Text, contentType: Option<Text>, bytes: Text) returns (b: Text, out: Text)
    requires |bytes| < SLICE_LIMIT
    ensures b == BoundaryOf(bytes)
    ensures out == Encode(b, Chunks(sid, filename, contentType, bytes))
  {
    b := FindBoundary(bytes);
    out := Fields(b, sid, filename, contentType);
    ghost var fields := out;
    var header := FileHeader(b, filename, contentType, bytes);
    out := out + header;
    out := out + bytes;
    out := out + (CRLF + DASHES + b + DASHES + CRLF);
    Closing(fields, header, bytes, b);
    ghost var chunks := Chunks(sid, filename, contentType, bytes);
    BlocksStep(b, chunks[..|chunks| - 1], chunks[|chunks| - 1]);
    BlocksEncode(b, chunks, []);
    assert chunks + [] == chunks;
  }

  lemma BlocksStep(b: Text, chunks: seq<Text>, c: Text)
    ensures Blocks(b, chunks + [c]) == Blocks(b, chunks) + Block(b, c)
  {
    assert (chunks + [c])[..|chunks|] == chunks;
  }

  lemma Closing(fields: Text, header: Text, bytes: Text, b: Text)
    ensures fields + header + bytes + (CRLF + DASHES + b + DASHES + CRLF)
         == fields + (header + bytes + CRLF) + (DASHES + b + (DASHES + CRLF))
  {
  }

  lemma BlockJoin(b: Text, c: Text, tail: Text)
    ensures Block(b, c) + (DASHES + b + tail) == DASHES + b + (CRLF + (c + Delimiter(b) + tail))
  {
    assert Block(b, c) == DASHES + b + (CRLF + c) + CRLF;
    assert CRLF + (c + Delimiter(b) + tail) == (CRLF + c) + (CRLF + DASHES + b) + tail;
    assert CRLF + (DASHES + b + tail) == (CRLF + DASHES + b) + tail;
  }

  /** Parts written one after another, closed, are the encoding of their chunks. */
  lemma {:induction false} BlocksEncode(b: Text, chunks: seq<Text>, more: seq<Text>)
    ensures Blocks(b, chunks) + (DASHES + b + Tail(b, more)) == Encode(b, chunks + more)
  {
    if chunks == [] {
      assert chunks + more == more;
    } else {
      var before, c := chunks[..|chunks| - 1], chunks[|chunks| - 1];
      BlocksEncode(b, before, [c] + more);
      assert before + ([c] + more) == chunks + more;
      assert ([c] + more)[1..] == more;
      BlockJoin(b, c, Tail(b, more));
      assert Blocks(b, before) + (Block(b, c) + (DASHES + b + Tail(b, more)))
          == Blocks(b, chunks) + (DASHES + b + Tail(b, more));
    }
  }
}
