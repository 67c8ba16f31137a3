/** The SSE follower of scripts/bench_replay_view.py: frames cut from a byte stream, and when a sequence number arrived. */
module Follower {
  import opened Wrappers
  import opened Seqs
  import opened Bytes

  datatype Kind = Ledger | View

  const TERMINATOR: seq<byte> := [LF, LF]
  const ID_PREFIX: seq<byte> := Ascii("id: ")

  /** What a frame's identifier stands for: an arbitrary, possibly undefined, sequence number. */
  type SeqOf = seq<byte> -> Option<int>

  /** The fields of a follower. */
  datatype Fields = Fields(
    bytes: nat,
    buf: seq<byte>,
    seqT: seq<real>,
    seqV: seq<int>,
    maxSeq: int,
    frames: seq<(real, seq<byte>)>,
    lastId: Option<seq<byte>>)

  /** Before the first byte, told to count from m. */
  function Fresh(m: int): Fields {
    Fields(0, [], [], [], m, [], None)
  }

  predicate IsId(frame: seq<byte>) {
    ID_PREFIX <= frame
  }

  predicate IsLf(b: byte) {
    b == LF
  }

  /** `frame[4:nl]`: the text between the prefix and the first newline. */
  function Ident(frame: seq<byte>): seq<byte>
    requires IsId(frame)
  {
    var nl := Skip(frame, IsLf);
    if nl < 4 then [] else frame[4..nl]
  }

  /** The effect of one complete frame received at time t. */
  function Receive(kind: Kind, seqOf: SeqOf, f: Fields, t: real, frame: seq<byte>): Fields {
    if !IsId(frame) then f
    else
      var id := Ident(frame);
      var g := f.(lastId := Some(id), frames := if kind.View? then f.frames + [(t, frame)] else f.frames);
      var s := seqOf(id);
      if s.Some? && s.value > f.maxSeq then
        g.(maxSeq := s.value, seqT := f.seqT + [t], seqV := f.seqV + [s.value])
      else g
  }

  /** Length of the first complete frame with its terminator; 0 when none is complete. */
  function Cut(s: seq<byte>): (k: nat)
    ensures k <= |s|
  {
    var i := Find(s, TERMINATOR);
    if i.Some? then i.value + 2 else 0
  }

  /** The frames a byte string completes, each with its terminator. */
  function FramesOf(s: seq<byte>): seq<seq<byte>>
    decreases |s|
  {
    var k := Cut(s);
    if k == 0 then [] else [s[..k]] + FramesOf(s[k..])
  }

  /** The bytes after the last complete frame. */
  function RestOf(s: seq<byte>): seq<byte>
    decreases |s|
  {
    var k := Cut(s);
    if k == 0 then s else RestOf(s[k..])
  }

  /** The effect of frames, each with its receipt time. */
  function ReceiveAll(kind: Kind, seqOf: SeqOf, f: Fields, stamped: seq<(real, seq<byte>)>): Fields {
    if stamped == [] then f
    else
      var last := stamped[|stamped| - 1];
      Receive(kind, seqOf, ReceiveAll(kind, seqOf, f, stamped[..|stamped| - 1]), last.0, last.1)
  }

  function Stamp(t: real, frames: seq<seq<byte>>): (r: seq<(real, seq<byte>)>)
    ensures |r| == |frames|
  {
    seq(|frames|, i requires 0 <= i < |frames| => (t, frames[i]))
  }

  /** What `feed` does: every frame the chunk completes is received now, the rest waits. */
  function Fed(kind: Kind, seqOf: SeqOf, f: Fields, t: real, chunk: seq<byte>): Fields {
    var all := f.buf + chunk;
    ReceiveAll(kind, seqOf, f.(bytes := f.bytes + |chunk|, buf := RestOf(all)), Stamp(t, FramesOf(all)))
  }

  /** Strictly growing maxima, one time each, the last one current, and no complete frame waiting. */
  ghost predicate Consistent(f: Fields) {
    && |f.seqT| == |f.seqV|
    && (forall i, j :: 0 <= i < j < |f.seqV| ==> f.seqV[i] < f.seqV[j])
    && (f.seqV != [] ==> f.maxSeq == f.seqV[|f.seqV| - 1])
    && !Contains(f.buf, TERMINATOR)
  }

  function AtLeast(x: int): int -> bool {
    v => v >= x
  }

  /** The time of the first recorded maximum that reaches x. */
  function Delivered(f: Fields, x: int): Option<real>
    requires |f.seqT| == |f.seqV|
  {
    var i := Skip(f.seqV, AtLeast(x));
    if i < |f.seqV| then Some(f.seqT[i]) else None
  }

  // ----- the code

  class Follower {
    const kind: Kind
    const seqOf: SeqOf
    var bytes: nat
    var buf: seq<byte>
    var seqT: seq<real>
    var seqV: seq<int>
    var maxSeq: int
    var frames: seq<(real, seq<byte>)>
    var lastId: Option<seq<byte>>

    ghost function Abs(): Fields
      reads this
    {
      Fields(bytes, buf, seqT, seqV, maxSeq, frames, lastId)
    }

    constructor (kind: Kind, seqOf: SeqOf)
      ensures Abs() == Fresh(0) && this.kind == kind && this.seqOf == seqOf
      ensures Consistent(Abs())
    {
      this.kind := kind;
      this.seqOf := seqOf;
      bytes, buf, seqT, seqV, maxSeq, frames, lastId := 0, [], [], [], 0, [], None;
      new;
      assert !At(buf, TERMINATOR, 0);
    }

    /** A caller that already knows the stream up to m starts counting there. */
    method StartAbove(m: int)
      requires Consistent(Abs()) && seqV == []
      modifies this`maxSeq
      ensures Abs() == old(Abs()).(maxSeq := m) && Consistent(Abs())
    {
      maxSeq := m;
    }

    method Feed(t: real, chunk: seq<byte>)
      requires Consistent(Abs())
      modifies this
      ensures Abs() == Fed(kind, seqOf, old(Abs()), t, chunk)
      ensures Consistent(Abs())
    {
      bytes := bytes + |chunk|;
      buf := buf + chunk;
      ghost var all := buf;
      ghost var start := Abs();
      ghost var done: seq<seq<byte>> := [];
      while true
        invariant FramesOf(all) == done + FramesOf(buf) && RestOf(all) == RestOf(buf)
        invariant Abs() == ReceiveAll(kind, seqOf, start, Stamp(t, done)).(buf := buf)
        decreases |buf|
      {
        var i := Find(buf, TERMINATOR);
        if i.None? {
          break;
        }
        var frame, rest := buf[..i.value + 2], buf[i.value + 2..];
        FeedStep(kind, seqOf, start, t, done, frame, rest);
        FramesAssoc(done, frame, FramesOf(rest));
        buf := rest;
        Handle(t, frame);
        done := done + [frame];
      }
      assert done + [] == done;
      FedIs(kind, seqOf, start, old(bytes), old(buf), t, chunk);
      assert old(Abs()) == start.(bytes := old(bytes), buf := old(buf));
      ReceiveAllKeepsBytes(kind, seqOf, start, start.bytes, all, Stamp(t, done));
      assert start == start.(bytes := start.bytes, buf := all);
      FedIsConsistent(kind, seqOf, old(Abs()), t, chunk);
    }

    /** The loop body of `feed` on one complete frame. */
    method Handle(t: real, frame: seq<byte>)
      modifies this
      ensures Abs() == Receive(kind, seqOf, old(Abs()), t, frame)
    {
      if !(ID_PREFIX <= frame) {
        return;
      }
      var nl := Skip(frame, IsLf);
      var ident := if nl < 4 then [] else frame[4..nl];
      lastId := Some(ident);
      if kind == View {
        frames := frames + [(t, frame)];
      }
      var s := seqOf(ident);
      if s.Some? && s.value > maxSeq {
        maxSeq := s.value;
        seqT := seqT + [t];
        seqV := seqV + [s.value];
      }
    }

    /** Python's `bisect_left`. */
    method BisectLeft(x: int) returns (lo: nat)
      requires Consistent(Abs())
      ensures lo == Skip(seqV, AtLeast(x))
    {
      lo := 0;
      var hi: nat := |seqV|;
      while lo < hi
        invariant lo <= hi <= |seqV|
        invariant forall i :: 0 <= i < lo ==> seqV[i] < x
        invariant forall i :: hi <= i < |seqV| ==> seqV[i] >= x
      {
        var mid := (lo + hi) / 2;
        if seqV[mid] < x {
          lo := mid + 1;
        } else {
          hi := mid;
        }
      }
      SkipIs(seqV, AtLeast(x), lo);
    }

    method DeliveredAt(x: int) returns (r: Option<real>)
      requires Consistent(Abs())
      ensures r == Delivered(Abs(), x)
    {
      var i := BisectLeft(x);
      r := if i < |seqV| then Some(seqT[i]) else None;
    }
  }

  // ----- the buffer does not matter to a frame

  lemma {:induction false} ReceiveAllKeepsBytes(kind: Kind, seqOf: SeqOf, f: Fields, n: nat, buf: seq<byte>,
                                                     stamped: seq<(real, seq<byte>)>)
    ensures ReceiveAll(kind, seqOf, f.(bytes := n, buf := buf), stamped)
         == ReceiveAll(kind, seqOf, f, stamped).(bytes := n, buf := buf)
  {
    if stamped != [] {
      ReceiveAllKeepsBytes(kind, seqOf, f, n, buf, stamped[..|stamped| - 1]);
    }
  }

  lemma FramesAssoc(a: seq<seq<byte>>, x: seq<byte>, b: seq<seq<byte>>)
    ensures a + ([x] + b) == (a + [x]) + b
  {
  }

  /** Feeding a follower reads only its buffer besides the frames it completes. */
  lemma FedIs(kind: Kind, seqOf: SeqOf, f: Fields, n: nat, rest: seq<byte>, t: real, data: seq<byte>)
    ensures Fed(kind, seqOf, f.(bytes := n, buf := rest), t, data)
         == ReceiveAll(kind, seqOf, f, Stamp(t, FramesOf(rest + data))).(bytes := n + |data|, buf := RestOf(rest + data))
  {
    ReceiveAllKeepsBytes(kind, seqOf, f, n + |data|, RestOf(rest + data), Stamp(t, FramesOf(rest + data)));
  }

  lemma FeedStep(kind: Kind, seqOf: SeqOf, f: Fields, t: real, done: seq<seq<byte>>, frame: seq<byte>, rest: seq<byte>)
    ensures Receive(kind, seqOf, ReceiveAll(kind, seqOf, f, Stamp(t, done)).(buf := rest), t, frame)
         == ReceiveAll(kind, seqOf, f, Stamp(t, done + [frame])).(buf := rest)
  {
    var stamped := Stamp(t, done + [frame]);
    assert stamped[..|stamped| - 1] == Stamp(t, done);
  }

  lemma ReceiveIsConsistent(kind: Kind, seqOf: SeqOf, f: Fields, t: real, frame: seq<byte>)
    requires Consistent(f)
    ensures Consistent(Receive(kind, seqOf, f, t, frame))
  {
    hide Contains, Ident, IsId;
  }

  lemma {:induction false} ReceiveAllIsConsistent(kind: Kind, seqOf: SeqOf, f: Fields, stamped: seq<(real, seq<byte>)>)
    requires Consistent(f)
    ensures Consistent(ReceiveAll(kind, seqOf, f, stamped))
  {
    if stamped != [] {
      var n := |stamped| - 1;
      ReceiveAllIsConsistent(kind, seqOf, f, stamped[..n]);
      ReceiveIsConsistent(kind, seqOf, ReceiveAll(kind, seqOf, f, stamped[..n]), stamped[n].0, stamped[n].1);
    }
  }

  lemma FedIsConsistent(kind: Kind, seqOf: SeqOf, f: Fields, t: real, chunk: seq<byte>)
    requires Consistent(f)
    ensures Consistent(Fed(kind, seqOf, f, t, chunk))
  {
    var all := f.buf + chunk;
    var g := f.(bytes := f.bytes + |chunk|, buf := RestOf(all));
    RestHoldsNoTerminator(all);
    assert Consistent(g);
    ReceiveAllIsConsistent(kind, seqOf, g, Stamp(t, FramesOf(all)));
  }

  // ----- any chunking of a stream

  datatype Chunk = Chunk(t: real, data: seq<byte>)

  function Stream(chunks: seq<Chunk>): seq<byte> {
    if chunks == [] then [] else Stream(chunks[..|chunks| - 1]) + chunks[|chunks| - 1].data
  }

  /** The state after feeding the chunks one by one. */
  function FedAll(kind: Kind, seqOf: SeqOf, f: Fields, chunks: seq<Chunk>): Fields {
    if chunks == [] then f
    else
      var last := chunks[|chunks| - 1];
      Fed(kind, seqOf, FedAll(kind, seqOf, f, chunks[..|chunks| - 1]), last.t, last.data)
  }

  /** Every frame of the stream, stamped with the time of the chunk that completed it. */
  function Stamped(chunks: seq<Chunk>): seq<(real, seq<byte>)> {
    if chunks == [] then []
    else
      var before := chunks[..|chunks| - 1];
      var last := chunks[|chunks| - 1];
      Stamped(before) + Stamp(last.t, FramesOf(RestOf(Stream(before)) + last.data))
  }

  lemma {:induction false} RestHoldsNoTerminator(s: seq<byte>)
    ensures !Contains(RestOf(s), TERMINATOR)
    decreases |s|
  {
    var k := Cut(s);
    if k == 0 {
      FindDecidesContains(s, TERMINATOR);
    } else {
      RestHoldsNoTerminator(s[k..]);
    }
  }

  lemma CutOfLonger(a: seq<byte>, b: seq<byte>)
    requires Cut(a) > 0
    ensures Cut(a + b) == Cut(a)
  {
    var i := Find(a, TERMINATOR).value;
    FindSpec(a, TERMINATOR);
    forall j | 0 <= j <= i ensures At(a + b, TERMINATOR, j) == At(a, TERMINATOR, j) {
      assert (a + b)[j..j + 2] == a[j..j + 2];
    }
    FindIs(a + b, TERMINATOR, i);
  }

  /** A frame already complete is cut the same way when more bytes follow. */
  lemma {:induction false} CutAppend(a: seq<byte>, b: seq<byte>)
    ensures FramesOf(a + b) == FramesOf(a) + FramesOf(RestOf(a) + b)
    ensures RestOf(a + b) == RestOf(RestOf(a) + b)
    decreases |a|
  {
    var k := Cut(a);
    if k == 0 {
      assert [] + FramesOf(a + b) == FramesOf(a + b);
    } else {
      CutOfLonger(a, b);
      assert (a + b)[..k] == a[..k] && (a + b)[k..] == a[k..] + b;
      CutAppend(a[k..], b);
      assert [a[..k]] + (FramesOf(a[k..]) + FramesOf(RestOf(a[k..]) + b))
          == ([a[..k]] + FramesOf(a[k..])) + FramesOf(RestOf(a[k..]) + b);
    }
  }

  lemma {:induction false} ReceiveAllConcat(kind: Kind, seqOf: SeqOf, f: Fields, a: seq<(real, seq<byte>)>,
                                                 b: seq<(real, seq<byte>)>)
    ensures ReceiveAll(kind, seqOf, f, a + b) == ReceiveAll(kind, seqOf, ReceiveAll(kind, seqOf, f, a), b)
  {
    if b == [] {
      assert a + b == a;
    } else {
      assert (a + b)[..|a + b| - 1] == a + b[..|b| - 1];
      ReceiveAllConcat(kind, seqOf, f, a, b[..|b| - 1]);
    }
  }

  /** Feeding chunks is receiving the frames of the whole stream, whatever the chunks. */
  lemma {:induction false} FedAllIsStream(kind: Kind, seqOf: SeqOf, m: int, chunks: seq<Chunk>)
    ensures FedAll(kind, seqOf, Fresh(m), chunks)
         == ReceiveAll(kind, seqOf, Fresh(m), Stamped(chunks)).(bytes := |Stream(chunks)|, buf := RestOf(Stream(chunks)))
  {
    if chunks == [] {
      assert !At(Fresh(m).buf, TERMINATOR, 0);
    } else {
      var before, last := chunks[..|chunks| - 1], chunks[|chunks| - 1];
      FedAllIsStream(kind, seqOf, m, before);
      var received := ReceiveAll(kind, seqOf, Fresh(m), Stamped(before));
      var rest := RestOf(Stream(before));
      CutAppend(Stream(before), last.data);
      FedIs(kind, seqOf, received, |Stream(before)|, rest, last.t, last.data);
      ReceiveAllConcat(kind, seqOf, Fresh(m), Stamped(before), Stamp(last.t, FramesOf(rest + last.data)));
    }
  }

  /** Every state a follower reaches is consistent. */
  lemma {:induction false} ReachedIsConsistent(kind: Kind, seqOf: SeqOf, m: int, chunks: seq<Chunk>)
    ensures Consistent(FedAll(kind, seqOf, Fresh(m), chunks))
  {
    if chunks == [] {
      assert !At(Fresh(m).buf, TERMINATOR, 0);
    } else {
      var before, last := chunks[..|chunks| - 1], chunks[|chunks| - 1];
      ReachedIsConsistent(kind, seqOf, m, before);
      FedIsConsistent(kind, seqOf, FedAll(kind, seqOf, Fresh(m), before), last.t, last.data);
    }
  }

  function Untimed(stamped: seq<(real, seq<byte>)>): (r: seq<seq<byte>>)
    ensures |r| == |stamped|
  {
    seq(|stamped|, i requires 0 <= i < |stamped| => stamped[i].1)
  }

  lemma UntimedStamp(a: seq<(real, seq<byte>)>, t: real, frames: seq<seq<byte>>)
    ensures Untimed(a + Stamp(t, frames)) == Untimed(a) + frames
  {
  }

  lemma {:induction false} StampedFrames(chunks: seq<Chunk>)
    ensures Untimed(Stamped(chunks)) == FramesOf(Stream(chunks))
  {
    if chunks == [] {
      assert !At([], TERMINATOR, 0);
    } else {
      var before, last := chunks[..|chunks| - 1], chunks[|chunks| - 1];
      StampedFrames(before);
      CutAppend(Stream(before), last.data);
      UntimedStamp(Stamped(before), last.t, FramesOf(RestOf(Stream(before)) + last.data));
    }
  }

  /** Equal but for the receipt times. */
  ghost predicate SameButTimes(f: Fields, g: Fields) {
    && f.bytes == g.bytes && f.buf == g.buf && f.seqV == g.seqV && f.maxSeq == g.maxSeq && f.lastId == g.lastId
    && |f.seqT| == |g.seqT| && Untimed(f.frames) == Untimed(g.frames)
  }

  lemma UntimedAppend(a: seq<(real, seq<byte>)>, x: (real, seq<byte>))
    ensures Untimed(a + [x]) == Untimed(a) + [x.1]
  {
  }

  lemma {:induction false} TimesDoNotMatter(kind: Kind, seqOf: SeqOf, f: Fields, a: seq<(real, seq<byte>)>,
                                                 b: seq<(real, seq<byte>)>)
    requires Untimed(a) == Untimed(b)
    ensures SameButTimes(ReceiveAll(kind, seqOf, f, a), ReceiveAll(kind, seqOf, f, b))
  {
    assert |a| == |Untimed(a)| == |b|;
    if a != [] {
      var n := |a| - 1;
      assert Untimed(a[..n]) == Untimed(a)[..n] == Untimed(b[..n]);
      assert a[n].1 == Untimed(a)[n] == b[n].1;
      TimesDoNotMatter(kind, seqOf, f, a[..n], b[..n]);
      UntimedAppend(ReceiveAll(kind, seqOf, f, a[..n]).frames, a[n]);
      UntimedAppend(ReceiveAll(kind, seqOf, f, b[..n]).frames, b[n]);
    }
  }

  /** Any two chunkings of one stream leave the same frames, ids and sequence numbers; only receipt times may differ. */
  lemma ChunkingDoesNotMatter(kind: Kind, seqOf: SeqOf, m: int, cs: seq<Chunk>, ds: seq<Chunk>)
    requires Stream(cs) == Stream(ds)
    ensures SameButTimes(FedAll(kind, seqOf, Fresh(m), cs), FedAll(kind, seqOf, Fresh(m), ds))
    ensures !Contains(FedAll(kind, seqOf, Fresh(m), cs).buf, TERMINATOR)
  {
    FedAllIsStream(kind, seqOf, m, cs);
    FedAllIsStream(kind, seqOf, m, ds);
    RestHoldsNoTerminator(Stream(cs));
    StampedFrames(cs);
    StampedFrames(ds);
    TimesDoNotMatter(kind, seqOf, Fresh(m), Stamped(cs), Stamped(ds));
  }

  // ----- delivery times

  function SeqOfFrame(seqOf: SeqOf, frame: seq<byte>): Option<int> {
    if IsId(frame) then seqOf(Ident(frame)) else None
  }

  /** Every identified frame that carries a sequence number, in order of receipt. */
  function Log(seqOf: SeqOf, stamped: seq<(real, seq<byte>)>): seq<(real, int)> {
    if stamped == [] then []
    else
      var last := stamped[|stamped| - 1];
      var s := SeqOfFrame(seqOf, last.1);
      var before := Log(seqOf, stamped[..|stamped| - 1]);
      if s.Some? then before + [(last.0, s.value)] else before
  }

  function Covers(x: int): ((real, int)) -> bool {
    (e: (real, int)) => e.1 >= x
  }

  /** A linear scan: the time of the first entry that covers x. */
  function FirstCovering(log: seq<(real, int)>, x: int): Option<real> {
    var i := Skip(log, Covers(x));
    if i < |log| then Some(log[i].0) else None
  }

  lemma SkipAppend<T>(s: seq<T>, stop: T -> bool, x: T)
    ensures Skip(s + [x], stop) == if Skip(s, stop) < |s| || stop(x) then Skip(s, stop) else |s| + 1
  {
    var k := Skip(s, stop);
    SkipIs(s + [x], stop, if k < |s| || stop(x) then k else |s| + 1);
  }

  /** The search answers like the scan, and has no answer exactly while x is above the current maximum. */
  ghost predicate Agrees(f: Fields, log: seq<(real, int)>, x: int) {
    && |f.seqT| == |f.seqV|
    && Delivered(f, x) == FirstCovering(log, x)
    && (f.maxSeq < x <==> Delivered(f, x).None?)
  }

  lemma ReceiveAgrees(kind: Kind, seqOf: SeqOf, f: Fields, log: seq<(real, int)>, t: real, frame: seq<byte>, x: int)
    requires Agrees(f, log, x)
    ensures var s := SeqOfFrame(seqOf, frame);
            Agrees(Receive(kind, seqOf, f, t, frame), if s.Some? then log + [(t, s.value)] else log, x)
  {
    var s := SeqOfFrame(seqOf, frame);
    if s.Some? {
      SkipAppend(log, Covers(x), (t, s.value));
      SkipAppend(f.seqV, AtLeast(x), s.value);
    }
  }

  /** Searching the recorded maxima finds what scanning every frame finds. */
  lemma {:induction false} DeliveredIsFirstCovering(kind: Kind, seqOf: SeqOf, m: int, stamped: seq<(real, seq<byte>)>, x: int)
    requires x > m
    ensures Agrees(ReceiveAll(kind, seqOf, Fresh(m), stamped), Log(seqOf, stamped), x)
  {
    if stamped != [] {
      var before, last := stamped[..|stamped| - 1], stamped[|stamped| - 1];
      DeliveredIsFirstCovering(kind, seqOf, m, before, x);
      ReceiveAgrees(kind, seqOf, ReceiveAll(kind, seqOf, Fresh(m), before), Log(seqOf, before), last.0, last.1, x);
    }
  }

  /** The state after feeding the chunks gives the same delivery time as a scan of every frame received. */
  ghost predicate ScanAgrees(kind: Kind, seqOf: SeqOf, m: int, chunks: seq<Chunk>, x: int) {
    var f := FedAll(kind, seqOf, Fresh(m), chunks);
    && |f.seqT| == |f.seqV|
    && Delivered(f, x) == FirstCovering(Log(seqOf, Stamped(chunks)), x)
  }

  lemma ScanAgreesAbove(kind: Kind, seqOf: SeqOf, m: int, chunks: seq<Chunk>, x: int)
    requires x > m
    ensures ScanAgrees(kind, seqOf, m, chunks, x)
  {
    FedAllIsStream(kind, seqOf, m, chunks);
    DeliveredIsFirstCovering(kind, seqOf, m, Stamped(chunks), x);
  }

  // ----- below the initial maximum: which numberings the search still serves

  /** A frame that carries an identifier. */
  function FrameOf(id: seq<byte>): seq<byte> {
    ID_PREFIX + id + TERMINATOR
  }

  ghost predicate OneLine(id: seq<byte>) {
    LF !in id
  }

  lemma PrefixHasNoLf()
    ensures |ID_PREFIX| == 4 && LF !in ID_PREFIX
  {
    assert ID_PREFIX == [105, 100, 58, 32];
  }

  lemma FrameIsCut(id: seq<byte>)
    requires OneLine(id)
    ensures FramesOf(FrameOf(id)) == [FrameOf(id)]
  {
    var s, k := FrameOf(id), 4 + |id|;
    PrefixHasNoLf();
    assert forall j :: 0 <= j < k ==> s[j] == (ID_PREFIX + id)[j] && s[j] in ID_PREFIX + id;
    forall j | 0 <= j < k ensures !At(s, TERMINATOR, j) {
      assert s[j..j + 2][0] == s[j] != LF;
    }
    assert s[k..k + 2] == TERMINATOR;
    FindIs(s, TERMINATOR, k);
    assert s[k + 2..] == [] && s[..k + 2] == s;
    NothingIsCut();
    assert FramesOf(s) == [s] + FramesOf(s[k + 2..]);
  }

  lemma FrameCarries(id: seq<byte>)
    requires OneLine(id)
    ensures IsId(FrameOf(id)) && Ident(FrameOf(id)) == id
  {
    var s, k := FrameOf(id), 4 + |id|;
    PrefixHasNoLf();
    assert s[..4] == ID_PREFIX;
    forall j | 0 <= j < k ensures !IsLf(s[j]) {
      assert s[j] == (ID_PREFIX + id)[j] && s[j] in ID_PREFIX + id;
    }
    assert s[k] == LF;
    SkipIs(s, IsLf, k);
    assert s[4..k] == id;
  }

  lemma NothingIsCut()
    ensures FramesOf([]) == [] && RestOf([]) == []
  {
    assert !At<byte>([], TERMINATOR, 0);
  }

  lemma OneFrame(id: seq<byte>)
    requires OneLine(id)
    ensures Stamped([Chunk(1.0, FrameOf(id))]) == [(1.0, FrameOf(id))]
  {
    hide FramesOf, RestOf, FrameOf;
    var s := FrameOf(id);
    var cs := [Chunk(1.0, s)];
    assert cs[..0] == [] && Stream(cs[..0]) == [];
    NothingIsCut();
    FrameIsCut(id);
    assert RestOf([]) + s == s;
  }

  /** The number v lies between x and the initial maximum, where a frame is seen by the scan and not recorded. */
  predicate Unrecorded(v: Option<int>, m: int, x: int) {
    v.Some? && x <= v.value <= m
  }

  /** A frame with such a number makes the search and the scan differ. */
  lemma ScanDisagreesBelow(kind: Kind, seqOf: SeqOf, m: int, x: int, id: seq<byte>)
    requires OneLine(id) && Unrecorded(seqOf(id), m, x)
    ensures !ScanAgrees(kind, seqOf, m, [Chunk(1.0, FrameOf(id))], x)
  {
    hide FrameOf, IsId, Ident, FedAll;
    var s := FrameOf(id);
    var cs := [Chunk(1.0, s)];
    OneFrame(id);
    FrameCarries(id);
    FedAllIsStream(kind, seqOf, m, cs);
    assert Stamped(cs)[..0] == [];
    assert ReceiveAll(kind, seqOf, Fresh(m), []) == Fresh(m);
    assert Log(seqOf, Stamped(cs)) == [] + [(1.0, seqOf(id).value)];
  }

  /** No identifier stands for a number between x and the initial maximum. */
  ghost predicate SkipsBelow(seqOf: SeqOf, m: int, x: int) {
    forall id :: OneLine(id) ==> !Unrecorded(seqOf(id), m, x)
  }

  lemma IdentIsOneLine(frame: seq<byte>)
    requires IsId(frame)
    ensures OneLine(Ident(frame))
  {
    var nl := Skip(frame, IsLf);
    forall j | 4 <= j < nl ensures frame[j] != LF {
      assert !IsLf(frame[j]);
    }
  }

  lemma {:induction false} LogSkips(seqOf: SeqOf, stamped: seq<(real, seq<byte>)>, m: int, x: int)
    requires SkipsBelow(seqOf, m, x)
    ensures forall k :: 0 <= k < |Log(seqOf, stamped)| ==> !(x <= Log(seqOf, stamped)[k].1 <= m)
  {
    hide IsId, Ident;
    if stamped != [] {
      var last := stamped[|stamped| - 1];
      LogSkips(seqOf, stamped[..|stamped| - 1], m, x);
      if IsId(last.1) {
        IdentIsOneLine(last.1);
        assert !Unrecorded(seqOf(Ident(last.1)), m, x);
      }
    }
  }

  /** Recorded maxima lie above the initial one. */
  ghost predicate RecordsAbove(f: Fields, m: int) {
    f.maxSeq >= m && |f.seqT| == |f.seqV| && forall k :: 0 <= k < |f.seqV| ==> f.seqV[k] > m
  }

  lemma {:induction false} ReceivedAbove(kind: Kind, seqOf: SeqOf, m: int, stamped: seq<(real, seq<byte>)>)
    ensures RecordsAbove(ReceiveAll(kind, seqOf, Fresh(m), stamped), m)
  {
    hide IsId, Ident;
    if stamped != [] {
      ReceivedAbove(kind, seqOf, m, stamped[..|stamped| - 1]);
    }
  }

  lemma {:induction false} SameStop<T>(s: seq<T>, p: T -> bool, q: T -> bool)
    requires forall k :: 0 <= k < |s| ==> p(s[k]) == q(s[k])
    ensures Skip(s, p) == Skip(s, q)
  {
    if s != [] {
      SameStop(s[1..], p, q);
    }
  }

  /** Where no number lies between, looking for x is looking for the number after the initial maximum. */
  lemma ScanAgreesWhenSkipped(kind: Kind, seqOf: SeqOf, m: int, chunks: seq<Chunk>, x: int)
    requires x <= m && SkipsBelow(seqOf, m, x)
    ensures ScanAgrees(kind, seqOf, m, chunks, x)
  {
    hide FedAll, Stamped, Log, ReceiveAll, RestOf, Stream, SkipsBelow;
    var y := m + 1;
    var log := Log(seqOf, Stamped(chunks));
    FedAllIsStream(kind, seqOf, m, chunks);
    ReceivedAbove(kind, seqOf, m, Stamped(chunks));
    LogSkips(seqOf, Stamped(chunks), m, x);
    ScanAgreesAbove(kind, seqOf, m, chunks, y);
    var f := FedAll(kind, seqOf, Fresh(m), chunks);
    SameStop(f.seqV, AtLeast(x), AtLeast(y));
    SameStop(log, Covers(x), Covers(y));
  }

  /** For ANY numbering of identifiers the search answers every stream as the scan does if and only if no identifier
      stands for a number from x up to the initial maximum. */
  lemma AgreesExactlyWhenSkipped(kind: Kind, seqOf: SeqOf, m: int, x: int)
    ensures (forall chunks :: ScanAgrees(kind, seqOf, m, chunks, x)) <==> SkipsBelow(seqOf, m, x)
  {
    hide ScanAgrees;
    if SkipsBelow(seqOf, m, x) {
      forall chunks ensures ScanAgrees(kind, seqOf, m, chunks, x) {
        if x > m {
          ScanAgreesAbove(kind, seqOf, m, chunks, x);
        } else {
          ScanAgreesWhenSkipped(kind, seqOf, m, chunks, x);
        }
      }
    } else {
      var id :| OneLine(id) && Unrecorded(seqOf(id), m, x);
      ScanDisagreesBelow(kind, seqOf, m, x, id);
    }
  }

  /** So when some identifier stands for the initial maximum itself, as every decimal number does on a ledger stream, the
      two agree on every stream exactly for numbers above it. */
  lemma ExactlyAboveInitialMaximum(kind: Kind, seqOf: SeqOf, m: int, x: int, id: seq<byte>)
    requires OneLine(id) && seqOf(id) == Some(m)
    ensures (forall chunks :: ScanAgrees(kind, seqOf, m, chunks, x)) <==> x > m
  {
    hide ScanAgrees;
    AgreesExactlyWhenSkipped(kind, seqOf, m, x);
    if x <= m {
      assert Unrecorded(seqOf(id), m, x);
    }
  }
}
