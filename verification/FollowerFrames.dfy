/** What a follower keeps of a stream, said of the stream's own bytes: frames end at the first two line feeds in a row, and
    only those that start with `id: ` are kept. */
module FollowerFrames {
  import opened Wrappers
  import opened Seqs
  import opened Bytes
  import opened Follower

  // ----- cutting

  predicate NoPair(s: seq<byte>) {
    forall i :: 0 <= i < |s| - 1 ==> !(s[i] == 10 && s[i + 1] == 10)
  }

  /** Two line feeds in a row at the end, and not before. */
  predicate IsFrame(x: seq<byte>) {
    |x| >= 2 && x[|x| - 1] == x[|x| - 2] == 10 && NoPair(x[..|x| - 1])
  }

  predicate AreFrames(frames: seq<seq<byte>>) {
    forall k :: 0 <= k < |frames| ==> IsFrame(frames[k])
  }

  function Joined(frames: seq<seq<byte>>): seq<byte> {
    if frames == [] then [] else frames[0] + Joined(frames[1..])
  }

  lemma PairAt(s: seq<byte>, i: nat)
    ensures At(s, TERMINATOR, i) <==> i + 2 <= |s| && s[i] == s[i + 1] == 10
  {
    if i + 2 <= |s| {
      assert s[i..i + 2] == [s[i], s[i + 1]];
      assert TERMINATOR[0] == TERMINATOR[1] == 10;
    }
  }

  lemma CutMeans(s: seq<byte>)
    ensures Cut(s) == 0 ==> NoPair(s)
    ensures Cut(s) > 0 ==> IsFrame(s[..Cut(s)])
  {
    FindSpec(s, TERMINATOR);
    forall i: nat ensures At(s, TERMINATOR, i) <==> i + 2 <= |s| && s[i] == s[i + 1] == 10 {
      PairAt(s, i);
    }
  }

  /** Cutting loses no byte: the frames and the rest, one after another, are the stream. */
  lemma {:induction false} NothingIsLost(s: seq<byte>)
    ensures Joined(FramesOf(s)) + RestOf(s) == s
    ensures AreFrames(FramesOf(s)) && NoPair(RestOf(s))
    decreases |s|
  {
    hide Cut, IsFrame, NoPair;
    CutMeans(s);
    var k := Cut(s);
    if k > 0 {
      NothingIsLost(s[k..]);
      var more := FramesOf(s[k..]);
      assert ([s[..k]] + more)[1..] == more;
      assert s[..k] + (Joined(more) + RestOf(s[k..])) == s[..k] + Joined(more) + RestOf(s[k..]);
    }
  }

  lemma FrameIsCutFirst(x: seq<byte>, more: seq<byte>)
    requires IsFrame(x)
    ensures Cut(x + more) == |x|
  {
    var s, n := x + more, |x| - 2;
    PairAt(s, n);
    forall i | 0 <= i < n ensures !At(s, TERMINATOR, i) {
      PairAt(s, i);
      assert x[..|x| - 1][i] == s[i] && x[..|x| - 1][i + 1] == s[i + 1];
    }
    FindIs(s, TERMINATOR, n);
  }

  lemma NothingToCut(s: seq<byte>)
    requires NoPair(s)
    ensures Cut(s) == 0
  {
    FindSpec(s, TERMINATOR);
    if Find(s, TERMINATOR).Some? {
      PairAt(s, Find(s, TERMINATOR).value);
    }
  }

  /** And there is no other way to cut a stream into frames. */
  lemma {:induction false} CutsOnlySo(frames: seq<seq<byte>>, rest: seq<byte>)
    requires AreFrames(frames) && NoPair(rest)
    ensures FramesOf(Joined(frames) + rest) == frames && RestOf(Joined(frames) + rest) == rest
  {
    hide Cut, NoPair;
    if frames == [] {
      NothingToCut(rest);
      assert [] + rest == rest;
    } else {
      var x, tail := frames[0], Joined(frames[1..]) + rest;
      var s := Joined(frames) + rest;
      assert s == x + tail;
      FrameIsCutFirst(x, tail);
      assert s[..|x|] == x && s[|x|..] == tail;
      CutsOnlySo(frames[1..], rest);
      assert frames == [x] + frames[1..];
    }
  }

  // ----- keeping

  /** It starts with `id: `. */
  predicate Marked(x: seq<byte>) {
    [105, 100, 58, 32] <= x
  }

  /** `id: `, this identifier, and the end of the line. */
  predicate Bears(x: seq<byte>, id: seq<byte>) {
    [105, 100, 58, 32] + id + [10] <= x && 10 !in id
  }

  lemma MarkedIsId(x: seq<byte>)
    ensures IsId(x) <==> Marked(x)
  {
    assert ID_PREFIX == [105, 100, 58, 32];
  }

  lemma FrameBears(x: seq<byte>)
    requires IsFrame(x) && Marked(x)
    ensures IsId(x) && Bears(x, Ident(x))
  {
    MarkedIsId(x);
    var nl := Skip(x, IsLf);
    var prefix: seq<byte> := [105, 100, 58, 32];
    assert x[0] == prefix[0] && x[1] == prefix[1] && x[2] == prefix[2] && x[3] == prefix[3];
    assert forall i :: 0 <= i < nl ==> !IsLf(x[i]);
    assert IsLf(x[|x| - 1]);
    assert 4 <= nl < |x| && IsLf(x[nl]);
    assert x[..nl + 1] == prefix + x[4..nl] + [10];
  }

  /** The frames with an identifier, in order. */
  function Identified(stamped: seq<(real, seq<byte>)>): seq<(real, seq<byte>)> {
    if stamped == [] then []
    else
      var before, last := Identified(stamped[..|stamped| - 1]), stamped[|stamped| - 1];
      if Marked(last.1) then before + [last] else before
  }

  /** A view stream keeps exactly the identified frames, in order, with their times; a ledger stream keeps none. */
  ghost predicate Keeps(f: Fields, kind: Kind, stamped: seq<(real, seq<byte>)>) {
    f.frames == (match kind case View => Identified(stamped) case Ledger => [])
  }

  /** The identifier is that of the last identified frame. */
  ghost predicate Remembers(f: Fields, stamped: seq<(real, seq<byte>)>) {
    var marked := Identified(stamped);
    if marked == [] then f.lastId == None
    else f.lastId.Some? && Bears(marked[|marked| - 1].1, f.lastId.value)
  }

  lemma {:induction false} ReceivedIsKept(kind: Kind, seqOf: SeqOf, m: int, stamped: seq<(real, seq<byte>)>)
    requires forall k :: 0 <= k < |stamped| ==> IsFrame(stamped[k].1)
    ensures var f := ReceiveAll(kind, seqOf, Fresh(m), stamped);
            Keeps(f, kind, stamped) && Remembers(f, stamped)
  {
    hide IsFrame, Marked, Bears, IsId, Ident;
    if stamped != [] {
      var n := |stamped| - 1;
      ReceivedIsKept(kind, seqOf, m, stamped[..n]);
      MarkedIsId(stamped[n].1);
      if Marked(stamped[n].1) {
        FrameBears(stamped[n].1);
      }
    }
  }

  /** Whatever the chunks: what the frames are, which of them a follower keeps, and the identifier it resumes from. */
  lemma StreamIsKept(kind: Kind, seqOf: SeqOf, m: int, chunks: seq<Chunk>)
    ensures var f, stamped := FedAll(kind, seqOf, Fresh(m), chunks), Stamped(chunks);
            && Joined(Untimed(stamped)) + f.buf == Stream(chunks) && f.bytes == |Stream(chunks)|
            && AreFrames(Untimed(stamped)) && NoPair(f.buf)
            && Keeps(f, kind, stamped) && Remembers(f, stamped)
  {
    hide FedAll, ReceiveAll, Stamped, IsFrame, NoPair, Identified, Bears, FramesOf, RestOf, Stream;
    var stamped := Stamped(chunks);
    FedAllIsStream(kind, seqOf, m, chunks);
    StampedFrames(chunks);
    NothingIsLost(Stream(chunks));
    forall k | 0 <= k < |stamped| ensures IsFrame(stamped[k].1) {
      assert Untimed(stamped)[k] == stamped[k].1;
    }
    ReceivedIsKept(kind, seqOf, m, stamped);
  }
}
