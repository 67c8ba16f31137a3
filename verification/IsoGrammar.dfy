/** Exactly which texts console-tui/src/localtime.rs reads as a timestamp, and as which instant. */
module IsoGrammar {
  import opened Wrappers
  import opened Seqs
  import opened Texts
  import opened Decimal
  import opened Calendar
  import opened IsoTime

  // ----- splitting

  lemma SplitHead(s: string, c: char) returns (rest: string)
    ensures var r := Split(s, c);
            && c !in r[0]
            && (if c in s then s == r[0] + [c] + rest && Split(rest, c) == r[1..] else r == [s] && rest == "")
  {
    var k := Skip(s, Is(c));
    rest := if k < |s| then s[k + 1..] else "";
    if k < |s| {
      assert s == s[..k] + [s[k]] + s[k + 1..];
      assert ([s[..k]] + Split(rest, c))[1..] == Split(rest, c);
    }
  }

  lemma SplitFront(a: string, c: char, rest: string)
    requires c !in a && (rest == "" || rest[0] == c)
    ensures Split(a + rest, c)[0] == a
  {
    if rest == "" {
      assert a + rest == a;
      SplitAtFirst(a, c, "");
    } else {
      assert a + rest == a + [c] + rest[1..];
      SplitAtFirst(a, c, rest[1..]);
    }
  }

  lemma SplitPair(a: string, b: string, c: char)
    requires c !in a
    ensures Split(a + [c] + b, c)[0] == a && Split(a + [c] + b, c)[1..] == Split(b, c)
  {
    SplitAtFirst(a, c, b);
  }

  // ----- the date: three numbers, and whatever follows a third hyphen

  datatype DateText = DateText(year: string, month: string, day: string, more: string)

  function WriteDateText(t: DateText): string {
    t.year + ['-'] + (t.month + ['-'] + (t.day + t.more))
  }

  ghost predicate DateReads(t: DateText, c: Date) {
    && '-' !in t.year && '-' !in t.month && '-' !in t.day && (t.more == "" || t.more[0] == '-')
    && ReadsAs(t.year, c.y) && ReadsAs(t.month, c.m) && ReadsAs(t.day, c.d)
  }

  lemma DateIsRead(t: DateText, c: Date)
    requires DateReads(t, c)
    ensures ParseDate(WriteDateText(t)) == Some(c)
  {
    hide Split, ParseI64, ReadsAs;
    SplitPair(t.year, t.month + ['-'] + (t.day + t.more), '-');
    SplitPair(t.month, t.day + t.more, '-');
    SplitFront(t.day, '-', t.more);
    var d := Split(WriteDateText(t), '-');
    assert d[1] == d[1..][0] && d[2] == d[1..][1..][0];
    ParseMeans(t.year, c.y);
    ParseMeans(t.month, c.m);
    ParseMeans(t.day, c.d);
  }

  lemma DateHasText(date: string, c: Date) returns (t: DateText)
    requires ParseDate(date) == Some(c)
    ensures date == WriteDateText(t) && DateReads(t, c)
  {
    hide Split, ParseI64, ReadsAs;
    var d := Split(date, '-');
    var r1 := SplitHead(date, '-');
    var r2 := SplitHead(r1, '-');
    var r3 := SplitHead(r2, '-');
    assert d[1] == d[1..][0] && d[2] == d[1..][1..][0];
    t := DateText(d[0], d[1], d[2], r2[|d[2]|..]);
    assert r2 == d[2] + r2[|d[2]|..];
    ParseMeans(d[0], c.y);
    ParseMeans(d[1], c.m);
    ParseMeans(d[2], c.d);
  }

  // ----- the time: hours and minutes, and seconds up to a point or a colon

  datatype TimeText = TimeText(hour: string, minute: string, second: Option<string>, more: string)

  function WriteTimeText(t: TimeText): string {
    t.hour + [':'] + (t.minute + (if t.second.Some? then [':'] + (t.second.value + t.more) else ""))
  }

  ghost predicate TimeReads(t: TimeText, h: int, mi: int, s: int) {
    && ':' !in t.hour && ':' !in t.minute && ReadsAs(t.hour, h) && ReadsAs(t.minute, mi)
    && match t.second
       case None => s == 0 && t.more == ""
       case Some(x) => ':' !in x && '.' !in x && (t.more == "" || t.more[0] == ':' || t.more[0] == '.') && ReadsAs(x, s)
  }

  /** Up to the first colon, and then up to the first point, is up to the first of the two. */
  lemma SecondsFront(x: string, more: string)
    requires ':' !in x && '.' !in x && (more == "" || more[0] == ':' || more[0] == '.')
    ensures Split(Split(x + more, ':')[0], '.')[0] == x
  {
    hide Split;
    var s := x + more;
    var rest := SplitHead(s, ':');
    var a := Split(s, ':')[0];
    if more == "" || more[0] == ':' {
      SplitFront(x, ':', more);
      SplitFront(x, '.', "");
      assert x + "" == x;
    } else {
      FrontHolds(x, more, a, rest);
      SplitFront(x, '.', a[|x|..]);
      assert a == x + a[|x|..];
    }
  }

  lemma FrontHolds(x: string, more: string, a: string, rest: string)
    requires ':' !in x && more != "" && more[0] != ':'
    requires x + more == a || x + more == a + [':'] + rest
    ensures |a| > |x| && a[..|x|] == x && a[|x|] == more[0]
  {
    var s := x + more;
    assert s[|x|] == more[0] && s[..|x|] == x && s[..|a|] == a;
    assert forall i :: 0 <= i < |x| ==> s[i] == x[i] && x[i] in x;
    assert s == a || s[|a|] == ':';
    assert a[..|x|] == s[..|a|][..|x|];
  }

  lemma TimeIsRead(t: TimeText, h: int, mi: int, s: int)
    requires TimeReads(t, h, mi, s)
    ensures ParseClock(WriteTimeText(t)) == Some(h * 3600 + mi * 60 + s)
  {
    hide Split, ParseI64, ReadsAs;
    ParseMeans(t.hour, h);
    ParseMeans(t.minute, mi);
    match t.second
    case None =>
      SplitPair(t.hour, t.minute, ':');
      SplitAtFirst(t.minute, ':', "");
      assert t.minute + "" == t.minute;
      PieceCount(WriteTimeText(t), t.hour, t.minute);
      ReadZero();
      FrontOfZero();
    case Some(x) =>
      var rest := x + t.more;
      assert t.minute + ([':'] + rest) == t.minute + [':'] + rest;
      SplitPair(t.hour, t.minute + [':'] + rest, ':');
      SplitPair(t.minute, rest, ':');
      var c := Split(WriteTimeText(t), ':');
      assert c[1] == c[1..][0] && c[2] == c[1..][1..][0];
      SecondsFront(x, t.more);
      ParseMeans(x, s);
  }

  lemma PieceCount(s: string, a: string, b: string)
    requires Split(s, ':')[1..] == [b] && Split(s, ':')[0] == a
    ensures Split(s, ':') == [a, b]
  {
  }

  lemma FrontOfZero()
    ensures Split("0", '.')[0] == "0"
  {
    assert "0" + "" == "0";
    SplitFront("0", '.', "");
  }

  lemma TimeHasText(clock: string, secs: int) returns (t: TimeText, h: int, mi: int, s: int)
    requires ParseClock(clock) == Some(secs)
    ensures clock == WriteTimeText(t) && TimeReads(t, h, mi, s) && secs == h * 3600 + mi * 60 + s
  {
    hide Split, ParseI64, ReadsAs;
    var c := Split(clock, ':');
    var r1 := SplitHead(clock, ':');
    var r2 := SplitHead(r1, ':');
    assert c[1] == c[1..][0];
    h, mi := ParseI64(c[0]).value, ParseI64(c[1]).value;
    ParseMeans(c[0], h);
    ParseMeans(c[1], mi);
    if |c| < 3 {
      assert |c[1..]| == 1;
      ReadZero();
      s := 0;
      t := TimeText(c[0], c[1], None, "");
      assert c[1] + "" == c[1];
    } else {
      assert c[2] == c[1..][1..][0];
      var r3 := SplitHead(r2, ':');
      var r4 := SplitHead(c[2], '.');
      var x := Split(c[2], '.')[0];
      s := ParseI64(x).value;
      ParseMeans(x, s);
      t := TimeText(c[0], c[1], Some(x), r2[|x|..]);
      MoreFollows(r2, c[2], r3, x, r4);
      assert c[1] + [':'] + r2 == c[1] + ([':'] + r2);
    }
  }

  lemma MoreFollows(r: string, piece: string, r3: string, x: string, r4: string)
    requires ':' !in piece && '.' !in x
    requires r == piece || r == piece + [':'] + r3
    requires piece == x || piece == x + ['.'] + r4
    ensures |x| <= |r| && r == x + r[|x|..] && ':' !in x
    ensures var more := r[|x|..]; more == "" || more[0] == ':' || more[0] == '.'
  {
    assert forall i :: 0 <= i < |x| ==> x[i] == piece[i] && piece[i] in piece;
    assert r[..|x|] == x;
  }

  // ----- the zone: none, `Z`, or hours and minutes with or without a colon

  /** The minutes of an offset count for nothing when they are no number. */
  ghost predicate MinutesRead(t: string, mi: int) {
    ReadsAs(t, mi) || (mi == 0 && forall v :: !ReadsAs(t, v))
  }

  ghost predicate OffsetReads(body: string, hours: string, minutes: string, h: int, mi: int) {
    && |body| >= 2 && ReadsAs(hours, h) && MinutesRead(minutes, mi)
    && ((':' !in hours && body == hours + [':'] + minutes)
        || (':' !in body && |hours| == 2 && body == hours + minutes))
  }

  ghost predicate ZoneReads(z: string, off: int) {
    if z == "" || z == "Z" then off == 0
    else exists hours, minutes, h, mi ::
      OffsetReads(z[1..], hours, minutes, h, mi) && off == if z[0] == '-' then -(h * 3600 + mi * 60) else h * 3600 + mi * 60
  }

  lemma MinutesAreRead(t: string, mi: int)
    ensures MinutesRead(t, mi) <==> mi == if ParseI64(t).Some? then ParseI64(t).value else 0
  {
    hide ParseI64, ReadsAs;
    forall v ensures ParseI64(t) == Some(v) <==> ReadsAs(t, v) {
      ParseMeans(t, v);
    }
  }

  lemma OffsetPiecesAre(body: string, hours: string, minutes: string, h: int, mi: int)
    requires OffsetReads(body, hours, minutes, h, mi)
    ensures var colon := SplitOnce(body, ':');
            (if colon.Some? then colon.value else (body[..2], body[2..])) == (hours, minutes)
  {
    hide ReadsAs, MinutesRead;
    if ':' !in body {
      NoneToSplit(body, ':');
      assert body[..2] == hours && body[2..] == minutes;
    } else {
      SplitOnceAt(hours, ':', minutes);
    }
  }

  lemma NoneToSplit(s: string, c: char)
    ensures SplitOnce(s, c).None? <==> c !in s
    ensures SplitOnce(s, c).Some? ==>
              var p := SplitOnce(s, c).value; c !in p.0 && s == p.0 + [c] + p.1
  {
    if c !in s {
      SkipIs(s, Is(c), |s|);
    }
  }

  lemma ZoneIsRead(z: string, off: int)
    ensures ParseOffset(z) == Some(off) <==> ZoneReads(z, off)
  {
    if z != "" && z != "Z" {
      OffsetIsRead(z, off);
    }
  }

  lemma OffsetIsRead(z: string, off: int)
    requires z != "" && z != "Z"
    ensures ParseOffset(z) == Some(off) <==> ZoneReads(z, off)
  {
    hide ReadsAs, MinutesRead, ParseI64, SplitOnce;
    var body := z[1..];
    if ZoneReads(z, off) {
      var hours, minutes, h, mi :| OffsetReads(body, hours, minutes, h, mi)
        && off == if z[0] == '-' then -(h * 3600 + mi * 60) else h * 3600 + mi * 60;
      OffsetPiecesAre(body, hours, minutes, h, mi);
      ParseMeans(hours, h);
      MinutesAreRead(minutes, mi);
    }
    if ParseOffset(z) == Some(off) {
      NoneToSplit(body, ':');
      var colon := SplitOnce(body, ':');
      var hm := if colon.Some? then colon.value else (body[..2], body[2..]);
      var h := ParseI64(hm.0).value;
      var mi := if ParseI64(hm.1).Some? then ParseI64(hm.1).value else 0;
      ParseMeans(hm.0, h);
      MinutesAreRead(hm.1, mi);
      assert OffsetReads(body, hm.0, hm.1, h, mi);
    }
  }

  // ----- the timestamp

  datatype Timestamp = Timestamp(date: DateText, time: TimeText, zone: string)

  function WriteTimestamp(t: Timestamp): string {
    WriteDateText(t.date) + ['T'] + (WriteTimeText(t.time) + t.zone)
  }

  predicate StartsZone(c: char) {
    c == '+' || c == '-' || c == 'Z'
  }

  ghost predicate NoZoneIn(s: string) {
    '+' !in s && '-' !in s && 'Z' !in s
  }

  /** The text denotes the instant: a date before the first T, a time before the first sign or Z, and a zone. */
  ghost predicate Denotes(t: Timestamp, c: Date, h: int, mi: int, s: int, off: int) {
    && 'T' !in WriteDateText(t.date) && NoZoneIn(WriteTimeText(t.time))
    && (t.zone == "" || StartsZone(t.zone[0]))
    && DateReads(t.date, c) && 1 <= c.m <= 12 && 1 <= c.d <= 31
    && TimeReads(t.time, h, mi, s) && ZoneReads(t.zone, off)
  }

  function Instant(c: Date, h: int, mi: int, s: int, off: int): int {
    Days(c) * 86400 + (h * 3600 + mi * 60 + s) - off
  }

  lemma ClockEnds(clock: string, zone: string)
    requires NoZoneIn(clock) && (zone == "" || StartsZone(zone[0]))
    ensures var rest := clock + zone;
            Skip(rest, IsOffsetMark) == |clock| && rest[..|clock|] == clock && rest[|clock|..] == zone
  {
    var rest := clock + zone;
    forall i | 0 <= i < |clock| ensures !IsOffsetMark(rest[i]) {
      assert rest[i] == clock[i] && clock[i] in clock;
    }
    SkipIs(rest, IsOffsetMark, |clock|);
  }

  /** A text that denotes an instant is read as it. */
  lemma DenotedIsRead(ts: string, t: Timestamp, c: Date, h: int, mi: int, s: int, off: int)
    requires Trim(ts) == WriteTimestamp(t) && Denotes(t, c, h, mi, s, off)
    ensures ParseIsoEpoch(ts) == Some(Instant(c, h, mi, s, off))
  {
    hide Trim, ParseDate, ParseClock, ParseOffset, Days, WriteDateText, WriteTimeText, DateReads, TimeReads, ZoneReads,
         SplitOnce, NoZoneIn;
    var date, clock := WriteDateText(t.date), WriteTimeText(t.time);
    SplitOnceAt(date, 'T', clock + t.zone);
    ClockEnds(clock, t.zone);
    DateIsRead(t.date, c);
    TimeIsRead(t.time, h, mi, s);
    ZoneIsRead(t.zone, off);
  }

  lemma RestIsCut(rest: string)
    ensures var i := Skip(rest, IsOffsetMark);
            && rest == rest[..i] + rest[i..] && NoZoneIn(rest[..i]) && (rest[i..] == "" || StartsZone(rest[i..][0]))
  {
    hide Skip, NoZoneIn;
    var i := Skip(rest, IsOffsetMark);
    NoMarkIn(rest[..i]);
  }

  lemma NoMarkIn(s: string)
    requires forall j :: 0 <= j < |s| ==> !IsOffsetMark(s[j])
    ensures NoZoneIn(s)
  {
  }

  /** What is read denotes the instant it is read as. */
  lemma ReadIsDenoted(ts: string) returns (t: Timestamp, c: Date, h: int, mi: int, s: int, off: int)
    requires ParseIsoEpoch(ts).Some?
    ensures Trim(ts) == WriteTimestamp(t) && Denotes(t, c, h, mi, s, off)
    ensures ParseIsoEpoch(ts) == Some(Instant(c, h, mi, s, off))
  {
    hide Trim, ParseDate, ParseClock, ParseOffset, Days, WriteDateText, WriteTimeText, DateReads, TimeReads, ZoneReads,
         SplitOnce, NoZoneIn;
    NoneToSplit(Trim(ts), 'T');
    var halves := SplitOnce(Trim(ts), 'T').value;
    var rest := halves.1;
    var i := Skip(rest, IsOffsetMark);
    RestIsCut(rest);
    c := ParseDate(halves.0).value;
    var dt := DateHasText(halves.0, c);
    var secs := ParseClock(rest[..i]).value;
    var tt;
    tt, h, mi, s := TimeHasText(rest[..i], secs);
    off := ParseOffset(rest[i..]).value;
    ZoneIsRead(rest[i..], off);
    t := Timestamp(dt, tt, rest[i..]);
  }

  /** A text is read as an instant if and only if it denotes one, and that is the instant. */
  lemma ReadExactly(ts: string, e: int)
    ensures ParseIsoEpoch(ts) == Some(e) <==>
            exists t, c, h, mi, s, off ::
              Trim(ts) == WriteTimestamp(t) && Denotes(t, c, h, mi, s, off) && e == Instant(c, h, mi, s, off)
  {
    hide *;
    if ParseIsoEpoch(ts) == Some(e) {
      var t, c, h, mi, s, off := ReadIsDenoted(ts);
    }
    if t, c, h, mi, s, off :| Trim(ts) == WriteTimestamp(t) && Denotes(t, c, h, mi, s, off) && e == Instant(c, h, mi, s, off) {
      DenotedIsRead(ts, t, c, h, mi, s, off);
    }
  }

  // ----- what is written

  /** A number in digits, filled up with zeros to at least w characters and no further. */
  ghost predicate ShowsNumber(s: string, n: nat, w: nat) {
    AllDigits(s) && Number(s) == n && (|s| == w || (|s| > w && s[0] != '0'))
  }

  lemma PaddedShows(n: nat, w: nat)
    requires w > 0
    ensures ShowsNumber(Padded(n, w), n, w)
  {
    PaddedMeans(n, w);
    if |Padded(n, w)| > w {
      WriteMeans(n, Write(n));
    }
  }

  /** Year, month and day of the local calendar date, and hours and minutes of the local day. */
  lemma PartsShow(e: int, o: int) returns (c: Date, y: string, m: string, d: string, h: string, mi: string)
    ensures PartsAt(e, o) == (y + "-" + m + "-" + d, h + ":" + mi)
    ensures Valid(c) && Days(c) == (e + o) / 86400
    ensures if c.y >= 0 then ShowsNumber(y, c.y, 4) else y != "" && y[0] == '-' && ShowsNumber(y[1..], -c.y, 3)
    ensures ShowsNumber(m, c.m, 2) && ShowsNumber(d, c.d, 2)
    ensures ShowsNumber(h, (e + o) % 86400 / 3600, 2) && ShowsNumber(mi, (e + o) % 3600 / 60, 2)
  {
    hide Padded, ShowsNumber, CivilFromDays, Days, Valid;
    var secs := (e + o) % 86400;
    DaysOfCivil((e + o) / 86400);
    CivilIsWritable((e + o) / 86400);
    c := CivilFromDays((e + o) / 86400);
    y, m, d := WriteYear(c.y), Padded(c.m, 2), Padded(c.d, 2);
    h, mi := Padded(secs / 3600, 2), Padded(secs % 3600 / 60, 2);
    if c.y >= 0 {
      PaddedShows(c.y, 4);
    } else {
      PaddedShows(-c.y, 3);
      assert y[1..] == Padded(-c.y, 3);
    }
    PaddedShows(c.m, 2);
    PaddedShows(c.d, 2);
    PaddedShows(secs / 3600, 2);
    PaddedShows(secs % 3600 / 60, 2);
    HourOfDay(e + o);
  }

  lemma HourOfDay(t: int)
    ensures t % 86400 % 3600 == t % 3600
  {
    var q := t / 86400;
    assert t == 86400 * q + t % 86400;
    Mod3600(t % 86400, 24 * q);
  }

  lemma Mod3600(x: int, k: int)
    ensures (x + 3600 * k) % 3600 == x % 3600
  {
  }
}
