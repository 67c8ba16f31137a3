/** Reading and writing ISO 8601 timestamps, console-tui/src/localtime.rs. */
module IsoTime {
  import opened Wrappers
  import opened Seqs
  import opened Texts
  import opened Decimal
  import opened Calendar

  // ----- the code

  function Is(c: char): char -> bool {
    x => x == c
  }

  /** `split_once(c)` */
  function SplitOnce(s: string, c: char): Option<(string, string)> {
    var k := Skip(s, Is(c));
    if k < |s| then Some((s[..k], s[k + 1..])) else None
  }

  /** `split(c)` */
  function Split(s: string, c: char): (r: seq<string>)
    ensures r != []
    decreases |s|
  {
    var k := Skip(s, Is(c));
    if k < |s| then [s[..k]] + Split(s[k + 1..], c) else [s]
  }

  predicate IsOffsetMark(c: char) {
    c == '+' || c == '-' || c == 'Z'
  }

  /** The offset after the clock, in seconds. Its two-character prefix is read whether or not a colon is there. */
  function ParseOffset(o: string): Option<int> {
    if o == "" || o == "Z" then Some(0)
    else
      var sign := if o[0] == '-' then -1 else 1;
      var body := o[1..];
      if |body| < 2 then None
      else
        var colon := SplitOnce(body, ':');
        var hm := if colon.Some? then colon.value else (body[..2], body[2..]);
        var oh :- ParseI64(hm.0);
        var om := ParseI64(hm.1);
        Some(sign * (oh * 3600 + (if om.Some? then om.value else 0) * 60))
  }

  function ParseClock(clock: string): Option<int> {
    var c := Split(clock, ':');
    var h :- ParseI64(c[0]);
    if |c| < 2 then None
    else
      var mi :- ParseI64(c[1]);
      var s :- ParseI64(if |c| < 3 then "0" else Split(c[2], '.')[0]);
      Some(h * 3600 + mi * 60 + s)
  }

  function ParseDate(date: string): Option<Date> {
    var d := Split(date, '-');
    if |d| < 3 then None
    else
      var y :- ParseI64(d[0]);
      var m :- ParseI64(d[1]);
      var day :- ParseI64(d[2]);
      Some(Date(y, m, day))
  }

  function ParseIsoEpoch(ts: string): Option<int> {
    var halves :- SplitOnce(Trim(ts), 'T');
    var date :- ParseDate(halves.0);
    var rest := halves.1;
    var i := Skip(rest, IsOffsetMark);
    var clock :- ParseClock(rest[..i]);
    var off :- ParseOffset(rest[i..]);
    if !(1 <= date.m <= 12) || !(1 <= date.d <= 31) then None
    else Some(Days(date) * 86400 + clock - off)
  }

  /** `{y:04}`: the sign counts as one of the four. */
  function WriteYear(y: int): string {
    if y >= 0 then Padded(y, 4) else "-" + Padded(-y, 3)
  }

  function WriteDate(c: Date): string
    requires c.m >= 0 && c.d >= 0
  {
    WriteYear(c.y) + "-" + Padded(c.m, 2) + "-" + Padded(c.d, 2)
  }

  function WriteClock(secs: int): string
    requires secs >= 0
  {
    Padded(secs / 3600, 2) + ":" + Padded(secs % 3600 / 60, 2)
  }

  lemma CivilIsWritable(z: int)
    ensures CivilFromDays(z).m >= 0 && CivilFromDays(z).d >= 0
  {
    DaysOfCivil(z);
  }

  /** Date and time of `epoch` shifted by `offset` seconds. */
  function PartsAt(epoch: int, offset: int): (string, string) {
    var t := epoch + offset;
    CivilIsWritable(t / 86400);
    (WriteDate(CivilFromDays(t / 86400)), WriteClock(t % 86400))
  }

  // ----- the text of an instant in some offset, as section 5.6 of RFC 3339 has it (to the minute)

  function WriteOffset(o: int): string {
    var a := if o < 0 then -o else o;
    (if o < 0 then "-" else "+") + Padded(a / 3600, 2) + ":" + Padded(a % 3600 / 60, 2)
  }

  function Render(e: int, o: int): string {
    var p := PartsAt(e, o);
    p.0 + "T" + p.1 + WriteOffset(o)
  }

  function LocalYear(e: int, o: int): int {
    CivilFromDays((e + o) / 86400).y
  }

  // ----- splitting what was written

  lemma DigitsHold(s: string, c: char)
    requires AllDigits(s) && !IsDigit(c)
    ensures c !in s
  {
  }

  lemma SkipToFirst(a: string, c: char, rest: string)
    requires c !in a
    ensures Skip(a + [c] + rest, Is(c)) == |a| && Skip(a, Is(c)) == |a|
  {
    SkipIs(a + [c] + rest, Is(c), |a|);
    SkipIs(a, Is(c), |a|);
  }

  lemma SplitOnceAt(a: string, c: char, rest: string)
    requires c !in a
    ensures SplitOnce(a + [c] + rest, c) == Some((a, rest))
  {
    SkipToFirst(a, c, rest);
    var s := a + [c] + rest;
    assert s[..|a|] == a && s[|a| + 1..] == rest;
  }

  lemma SplitAtFirst(a: string, c: char, rest: string)
    requires c !in a
    ensures Split(a + [c] + rest, c) == [a] + Split(rest, c)
    ensures Split(a, c) == [a]
  {
    SkipToFirst(a, c, rest);
    var s := a + [c] + rest;
    assert s[..|a|] == a && s[|a| + 1..] == rest;
  }

  lemma SplitThree(a: string, b: string, d: string, c: char)
    requires c !in a && c !in b && c !in d
    ensures Split(a + [c] + (b + [c] + d), c) == [a, b, d]
  {
    SplitAtFirst(a, c, b + [c] + d);
    SplitAtFirst(b, c, d);
    SplitAtFirst(d, c, []);
    assert [a] + ([b] + [d]) == [a, b, d];
  }

  lemma ReadDate(y: nat, m: nat, d: nat)
    requires y <= MAX_I64 && m <= MAX_I64 && d <= MAX_I64
    ensures ParseDate(WriteDate(Date(y, m, d))) == Some(Date(y, m, d))
  {
    DigitsHold(Padded(y, 4), '-');
    DigitsHold(Padded(m, 2), '-');
    DigitsHold(Padded(d, 2), '-');
    JoinDate(Padded(y, 4), Padded(m, 2), Padded(d, 2));
    ParsePadded(y, 4);
    ParsePadded(m, 2);
    ParsePadded(d, 2);
    DateOfPieces(Padded(y, 4), Padded(m, 2), Padded(d, 2), Date(y, m, d));
  }

  lemma JoinDate(y: string, m: string, d: string)
    ensures y + "-" + m + "-" + d == y + ['-'] + (m + ['-'] + d)
  {
  }

  lemma DateOfPieces(y: string, m: string, d: string, c: Date)
    requires '-' !in y && '-' !in m && '-' !in d
    requires ParseI64(y) == Some(c.y) && ParseI64(m) == Some(c.m) && ParseI64(d) == Some(c.d)
    ensures ParseDate(y + ['-'] + (m + ['-'] + d)) == Some(c)
  {
    hide Split, ParseI64;
    SplitThree(y, m, d, '-');
  }

  /** The sign of a negative year reads as an empty year. */
  lemma RefuseNegativeYear(y: int, m: nat, d: nat)
    requires y < 0
    ensures ParseDate(WriteDate(Date(y, m, d))) == None
  {
    hide Split, Padded;
    var rest := Padded(-y, 3) + "-" + Padded(m, 2) + "-" + Padded(d, 2);
    assert WriteDate(Date(y, m, d)) == [] + ['-'] + rest;
    SplitAtFirst([], '-', rest);
  }

  lemma ClockOfPieces(h: string, mi: string, hour: int, minute: int)
    requires ':' !in h && ':' !in mi
    requires ParseI64(h) == Some(hour) && ParseI64(mi) == Some(minute)
    ensures ParseClock(h + [':'] + mi) == Some(hour * 3600 + minute * 60)
  {
    hide Split, ParseI64;
    SplitAtFirst(h, ':', mi);
    SplitAtFirst(mi, ':', []);
    assert [h] + [mi] == [h, mi];
    ReadZero();
  }

  lemma ReadHourMinute(h: nat, mi: nat)
    requires h <= MAX_I64 && mi <= MAX_I64
    ensures ParseClock(Padded(h, 2) + ":" + Padded(mi, 2)) == Some(h * 3600 + mi * 60)
  {
    DigitsHold(Padded(h, 2), ':');
    DigitsHold(Padded(mi, 2), ':');
    ParsePadded(h, 2);
    ParsePadded(mi, 2);
    ClockOfPieces(Padded(h, 2), Padded(mi, 2), h, mi);
  }

  lemma ReadZero()
    ensures ParseI64("0") == Some(0)
  {
    assert "0"[..0] == [];
    assert Number("0") == 0;
  }

  lemma ReadClock(secs: int)
    requires 0 <= secs < 86400
    ensures ParseClock(WriteClock(secs)) == Some(secs - secs % 60)
  {
    hide *;
    var h, mi := secs / 3600, secs % 3600 / 60;
    ClockIs(secs, h, mi);
    ReadHourMinute(h, mi);
    HourMinute(secs);
  }

  lemma ClockIs(secs: int, h: int, mi: int)
    requires 0 <= secs < 86400 && h == secs / 3600 && mi == secs % 3600 / 60
    ensures 0 <= h <= MAX_I64 && 0 <= mi <= MAX_I64
    ensures WriteClock(secs) == Padded(h, 2) + ":" + Padded(mi, 2)
  {
    hide Padded;
  }

  lemma HourMinute(secs: int)
    ensures secs / 3600 * 3600 + secs % 3600 / 60 * 60 == secs - secs % 60
  {
    Mod60(secs % 3600, 60 * (secs / 3600));
  }

  lemma Mod60(x: int, k: int)
    ensures (x + 60 * k) % 60 == x % 60
  {
  }

  lemma OffsetOfPieces(sign: char, h: string, mi: string, hour: int, minute: int)
    requires sign == '+' || sign == '-'
    requires ':' !in h && |h| == 2 && ParseI64(h) == Some(hour) && ParseI64(mi) == Some(minute)
    ensures ParseOffset([sign] + (h + [':'] + mi)) == Some((if sign == '-' then -1 else 1) * (hour * 3600 + minute * 60))
  {
    hide ParseI64, SplitOnce;
    SplitOnceAt(h, ':', mi);
    assert ([sign] + (h + [':'] + mi))[1..] == h + [':'] + mi;
  }

  lemma OffsetPieces(o: int, a: int)
    requires a == if o < 0 then -o else o
    ensures WriteOffset(o) == [if o < 0 then '-' else '+'] + (Padded(a / 3600, 2) + [':'] + Padded(a % 3600 / 60, 2))
    ensures ':' !in Padded(a / 3600, 2)
  {
    DigitsHold(Padded(a / 3600, 2), ':');
  }

  lemma ReadOffset(o: int)
    requires -360000 < o < 360000 && o % 60 == 0
    ensures ParseOffset(WriteOffset(o)) == Some(o)
  {
    hide *;
    var a := if o < 0 then -o else o;
    OffsetPieces(o, a);
    PaddedHasTwoDigits(a / 3600);
    InI64(a / 3600);
    InI64(a % 3600 / 60);
    ParsePadded(a / 3600, 2);
    ParsePadded(a % 3600 / 60, 2);
    OffsetOfPieces(if o < 0 then '-' else '+', Padded(a / 3600, 2), Padded(a % 3600 / 60, 2), a / 3600, a % 3600 / 60);
    HourMinute(a);
  }

  lemma InI64(n: nat)
    requires n < 1000
    ensures n <= MAX_I64
  {
  }

  lemma WrittenClockHoldsNoMark(secs: int, o: int)
    requires 0 <= secs < 86400
    ensures Skip(WriteClock(secs) + WriteOffset(o), IsOffsetMark) == |WriteClock(secs)|
  {
    var c := WriteClock(secs);
    forall i | 0 <= i < |c| ensures !IsOffsetMark(c[i]) {
      assert IsDigit(c[i]) || c[i] == ':';
    }
    SkipIs(c + WriteOffset(o), IsOffsetMark, |c|);
  }

  /** Years reached by 64-bit second counts stay far inside 64 bits. */
  lemma YearInRange(z: int)
    requires -0x1_0000_0000_0000_0000 <= z <= 0x1_0000_0000_0000_0000
    ensures -MAX_I64 <= CivilFromDays(z).y <= MAX_I64
  {
    var era, yoe, doy := SplitDays(z);
    CivilOfDayNumber(era, yoe, doy);
    DayInMonth(doy);
  }

  lemma DateHoldsNoT(c: Date)
    requires 0 <= c.m && 0 <= c.d
    ensures 'T' !in WriteDate(c)
    ensures WriteDate(c) != [] && (IsDigit(WriteDate(c)[0]) || WriteDate(c)[0] == '-')
  {
    DigitsHold(Padded(c.m, 2), 'T');
    DigitsHold(Padded(c.d, 2), 'T');
    DigitsHold(if c.y >= 0 then Padded(c.y, 4) else Padded(-c.y, 3), 'T');
    assert IsDigit(Padded(if c.y >= 0 then c.y else -c.y, if c.y >= 0 then 4 else 3)[0]);
  }

  lemma RenderIsTrimmed(e: int, o: int)
    ensures Trim(Render(e, o)) == Render(e, o)
  {
    var z := (e + o) / 86400;
    CivilIsWritable(z);
    DateHoldsNoT(CivilFromDays(z));
    var s := Render(e, o);
    var mi := Padded((if o < 0 then -o else o) % 3600 / 60, 2);
    assert s[0] == WriteDate(CivilFromDays(z))[0];
    assert s[|s| - 1] == mi[|mi| - 1] && IsDigit(mi[|mi| - 1]);
    TrimIsIdle(s);
  }

  /** Reading three pieces written together. */
  lemma InstantOfPieces(date: string, clock: string, off: string, c: Date, seconds: int, offset: int)
    requires 'T' !in date && Skip(clock + off, IsOffsetMark) == |clock|
    requires var s := date + ['T'] + (clock + off); Trim(s) == s
    requires ParseDate(date) == Some(c) && ParseClock(clock) == Some(seconds) && ParseOffset(off) == Some(offset)
    requires 1 <= c.m <= 12 && 1 <= c.d <= 31
    ensures ParseIsoEpoch(date + ['T'] + (clock + off)) == Some(Days(c) * 86400 + seconds - offset)
  {
    hide ParseDate, ParseClock, ParseOffset, Trim, Days, DaysFromCivil;
    SplitOnceAt(date, 'T', clock + off);
    assert (clock + off)[..|clock|] == clock && (clock + off)[|clock|..] == off;
  }

  lemma RefuseDate(date: string, rest: string)
    requires 'T' !in date && ParseDate(date) == None
    requires var s := date + ['T'] + rest; Trim(s) == s
    ensures ParseIsoEpoch(date + ['T'] + rest) == None
  {
    SplitOnceAt(date, 'T', rest);
  }

  /** Reading a written date, clock and offset. */
  lemma ReadWritten(c: Date, secs: int, o: int, s: string)
    requires 1 <= c.m <= 12 && 1 <= c.d <= 31 && c.y <= MAX_I64
    requires 0 <= secs < 86400 && -360000 < o < 360000 && o % 60 == 0
    requires s == WriteDate(c) + ['T'] + (WriteClock(secs) + WriteOffset(o)) && Trim(s) == s
    ensures ParseIsoEpoch(s) == if c.y >= 0 then Some(Days(c) * 86400 + (secs - secs % 60) - o) else None
  {
    hide *;
    DateHoldsNoT(c);
    if c.y >= 0 {
      InI64(c.m);
      InI64(c.d);
      ReadDate(c.y, c.m, c.d);
      WrittenClockHoldsNoMark(secs, o);
      ReadClock(secs);
      ReadOffset(o);
      InstantOfPieces(WriteDate(c), WriteClock(secs), WriteOffset(o), c, secs - secs % 60, o);
    } else {
      RefuseNegativeYear(c.y, c.m, c.d);
      RefuseDate(WriteDate(c), WriteClock(secs) + WriteOffset(o));
    }
  }

  lemma LocalDate(e: int, o: int) returns (c: Date)
    requires MIN_I64 <= e <= MAX_I64 && -360000 < o < 360000
    ensures 1 <= c.m <= 12 && 1 <= c.d <= 31 && c.y <= MAX_I64
    ensures c == CivilFromDays((e + o) / 86400) && c.y == LocalYear(e, o) && Days(c) == (e + o) / 86400
  {
    c := CivilFromDays((e + o) / 86400);
    DaysOfCivil((e + o) / 86400);
    YearInRange((e + o) / 86400);
  }

  lemma RenderIs(e: int, o: int, c: Date)
    requires CivilFromDays((e + o) / 86400) == c && c.m >= 0 && c.d >= 0
    ensures Render(e, o) == WriteDate(c) + ['T'] + (WriteClock((e + o) % 86400) + WriteOffset(o))
  {
  }

  /** Reading a rendering gives the instant back to the minute, exactly when the local year is not negative. */
  lemma ReadRendered(e: int, o: int)
    requires MIN_I64 <= e <= MAX_I64 && -360000 < o < 360000 && o % 60 == 0
    ensures ParseIsoEpoch(Render(e, o)) == if LocalYear(e, o) >= 0 then Some(e - (e + o) % 60) else None
  {
    hide *;
    var c := LocalDate(e, o);
    RenderIsTrimmed(e, o);
    RenderIs(e, o, c);
    ReadWritten(c, (e + o) % 86400, o, Render(e, o));
    Seconds(e + o, o);
  }

  lemma Seconds(t: int, o: int)
    ensures t / 86400 * 86400 + (t % 86400 - t % 86400 % 60) - o == t - o - t % 60
  {
    Mod60(t % 86400, 1440 * (t / 86400));
  }

  lemma WholeMinutes(e: int, o: int)
    requires o % 60 == 0
    ensures (e + o) % 60 == e % 60
  {
    Mod60(e, o / 60);
  }

  /** All renderings of one instant read as the same instant. */
  lemma RenderingsAgree(e: int, o1: int, o2: int)
    requires MIN_I64 <= e <= MAX_I64
    requires -360000 < o1 < 360000 && o1 % 60 == 0 && -360000 < o2 < 360000 && o2 % 60 == 0
    requires LocalYear(e, o1) >= 0 && LocalYear(e, o2) >= 0
    ensures ParseIsoEpoch(Render(e, o1)) == ParseIsoEpoch(Render(e, o2)) == Some(e - e % 60)
  {
    RenderingReads(e, o1);
    RenderingReads(e, o2);
  }

  lemma RenderingReads(e: int, o: int)
    requires MIN_I64 <= e <= MAX_I64 && -360000 < o < 360000 && o % 60 == 0 && LocalYear(e, o) >= 0
    ensures ParseIsoEpoch(Render(e, o)) == Some(e - e % 60)
  {
    hide *;
    ReadRendered(e, o);
    WholeMinutes(e, o);
  }

  // ----- every documented form: seconds, fractions, `Z`, an offset, or none

  datatype Zone = Unstated | Utc | Shifted(back: bool, hours: nat, minutes: nat)

  /** A timestamp as it is documented; the fraction is what follows a point after the seconds. */
  datatype Stamp = Stamp(date: Date, hour: nat, minute: nat, second: nat, fraction: Option<string>, zone: Zone)

  ghost predicate IsStamp(t: Stamp) {
    && 1 <= t.date.m <= 12 && 1 <= t.date.d <= 31 && t.date.y <= MAX_I64
    && t.hour <= MAX_I64 && t.minute <= MAX_I64 && t.second <= MAX_I64
    && (t.fraction.Some? ==> AllDigits(t.fraction.value))
    && (t.zone.Shifted? ==> t.zone.hours < 100 && t.zone.minutes <= MAX_I64)
  }

  function WriteSeconds(second: nat, fraction: Option<string>): string {
    if fraction.Some? then Padded(second, 2) + ['.'] + fraction.value else Padded(second, 2)
  }

  function WriteTime(t: Stamp): string {
    Padded(t.hour, 2) + [':'] + (Padded(t.minute, 2) + [':'] + WriteSeconds(t.second, t.fraction))
  }

  function WriteZone(z: Zone): string {
    match z
    case Unstated => ""
    case Utc => "Z"
    case Shifted(back, h, mi) => [if back then '-' else '+'] + (Padded(h, 2) + [':'] + Padded(mi, 2))
  }

  function WriteStamp(t: Stamp): string
    requires t.date.m >= 0 && t.date.d >= 0
  {
    WriteDate(t.date) + ['T'] + (WriteTime(t) + WriteZone(t.zone))
  }

  function ZoneSeconds(z: Zone): int {
    match z
    case Shifted(back, h, mi) => if back then -(h * 3600 + mi * 60) else h * 3600 + mi * 60
    case _ => 0
  }

  lemma ReadSeconds(second: nat, fraction: Option<string>)
    requires second <= MAX_I64 && (fraction.Some? ==> AllDigits(fraction.value))
    ensures ':' !in WriteSeconds(second, fraction)
    ensures ParseI64(Split(WriteSeconds(second, fraction), '.')[0]) == Some(second)
  {
    hide ParseI64, Split, Padded;
    var p := Padded(second, 2);
    DigitsHold(p, ':');
    DigitsHold(p, '.');
    ParsePadded(second, 2);
    match fraction
    case None => SplitAtFirst(p, '.', []);
    case Some(f) =>
      DigitsHold(f, ':');
      SplitAtFirst(p, '.', f);
  }

  lemma TimeOfPieces(h: string, mi: string, s: string, hour: int, minute: int, second: int)
    requires ':' !in h && ':' !in mi && ':' !in s
    requires ParseI64(h) == Some(hour) && ParseI64(mi) == Some(minute) && ParseI64(Split(s, '.')[0]) == Some(second)
    ensures ParseClock(h + [':'] + (mi + [':'] + s)) == Some(hour * 3600 + minute * 60 + second)
  {
    hide Split, ParseI64;
    SplitThree(h, mi, s, ':');
  }

  lemma ReadTime(t: Stamp)
    requires IsStamp(t)
    ensures ParseClock(WriteTime(t)) == Some(t.hour * 3600 + t.minute * 60 + t.second)
  {
    hide ParseI64, Split, Padded, ParseClock, WriteSeconds;
    DigitsHold(Padded(t.hour, 2), ':');
    DigitsHold(Padded(t.minute, 2), ':');
    ParsePadded(t.hour, 2);
    ParsePadded(t.minute, 2);
    ReadSeconds(t.second, t.fraction);
    TimeOfPieces(Padded(t.hour, 2), Padded(t.minute, 2), WriteSeconds(t.second, t.fraction), t.hour, t.minute, t.second);
  }

  lemma ReadZone(z: Zone)
    requires z.Shifted? ==> z.hours < 100 && z.minutes <= MAX_I64
    ensures ParseOffset(WriteZone(z)) == Some(ZoneSeconds(z))
  {
    hide ParseI64, Padded;
    if z.Shifted? {
      DigitsHold(Padded(z.hours, 2), ':');
      PaddedHasTwoDigits(z.hours);
      ParsePadded(z.hours, 2);
      ParsePadded(z.minutes, 2);
      OffsetOfPieces(if z.back then '-' else '+', Padded(z.hours, 2), Padded(z.minutes, 2), z.hours, z.minutes);
    }
  }

  predicate IsTimeChar(c: char) {
    IsDigit(c) || c == ':' || c == '.'
  }

  lemma TimeChars(t: Stamp)
    requires IsStamp(t)
    ensures forall i :: 0 <= i < |WriteTime(t)| ==> IsTimeChar(WriteTime(t)[i])
    ensures WriteTime(t) != []
  {
    hide Padded;
  }

  lemma TimeHoldsNoMark(t: Stamp)
    requires IsStamp(t)
    ensures Skip(WriteTime(t) + WriteZone(t.zone), IsOffsetMark) == |WriteTime(t)|
  {
    hide WriteTime, Padded;
    TimeChars(t);
    var w := WriteTime(t);
    var s := w + WriteZone(t.zone);
    forall i | 0 <= i < |w| ensures !IsOffsetMark(s[i]) {
      assert s[i] == w[i] && IsTimeChar(w[i]);
    }
    SkipIs(s, IsOffsetMark, |w|);
  }

  lemma ZoneEnds(z: Zone)
    ensures WriteZone(z) != [] ==> !IsWhite(WriteZone(z)[|WriteZone(z)| - 1])
  {
    hide Padded;
    match z
    case Shifted(back, h, mi) =>
      var w := WriteZone(z);
      var p := Padded(mi, 2);
      assert w[|w| - 1] == p[|p| - 1] && IsDigit(p[|p| - 1]);
    case _ =>
  }

  lemma DateStarts(c: Date)
    requires c.m >= 0 && c.d >= 0
    ensures WriteDate(c) != [] && !IsWhite(WriteDate(c)[0])
  {
    hide Padded;
    var y := WriteYear(c.y);
    assert WriteDate(c)[0] == y[0];
    if c.y >= 0 {
      assert IsDigit(Padded(c.y, 4)[0]);
    }
  }

  lemma StampIsTrimmed(t: Stamp)
    requires IsStamp(t)
    ensures Trim(WriteStamp(t)) == WriteStamp(t)
  {
    hide Trim, WriteDate, WriteTime, WriteZone, IsWhite;
    DateStarts(t.date);
    TimeChars(t);
    ZoneEnds(t.zone);
    var s, w, z := WriteStamp(t), WriteTime(t), WriteZone(t.zone);
    assert s[0] == WriteDate(t.date)[0];
    if z == [] {
      TimeCharIsVisible(w[|w| - 1]);
      assert s[|s| - 1] == w[|w| - 1];
    } else {
      assert s[|s| - 1] == z[|z| - 1];
    }
    TrimIsIdle(s);
  }

  lemma TimeCharIsVisible(c: char)
    requires IsTimeChar(c)
    ensures !IsWhite(c)
  {
  }

  /** A timestamp in any documented form reads as its days, plus its time to the second, minus its offset; a fraction
      counts for nothing, and a negative year is refused. */
  lemma ReadStamp(t: Stamp)
    requires IsStamp(t)
    ensures ParseIsoEpoch(WriteStamp(t)) ==
            if t.date.y >= 0
            then Some(Days(t.date) * 86400 + (t.hour * 3600 + t.minute * 60 + t.second) - ZoneSeconds(t.zone))
            else None
  {
    hide ParseDate, ParseClock, ParseOffset, ParseIsoEpoch, Trim, Days, WriteDate, WriteTime, WriteZone, ZoneSeconds;
    var c := t.date;
    StampIsTrimmed(t);
    DateHoldsNoT(c);
    if c.y >= 0 {
      InI64(c.m);
      InI64(c.d);
      ReadDate(c.y, c.m, c.d);
      ReadTime(t);
      TimeHoldsNoMark(t);
      ReadZone(t.zone);
      InstantOfPieces(WriteDate(c), WriteTime(t), WriteZone(t.zone), c,
                      t.hour * 3600 + t.minute * 60 + t.second, ZoneSeconds(t.zone));
    } else {
      RefuseNegativeYear(c.y, c.m, c.d);
      RefuseDate(WriteDate(c), WriteTime(t) + WriteZone(t.zone));
    }
  }

  /** The stamp of an instant: its date and time where the zone puts it, to the second. */
  function StampOf(e: int, fraction: Option<string>, z: Zone): Stamp {
    var t := e + ZoneSeconds(z);
    var secs := t % 86400;
    Stamp(CivilFromDays(t / 86400), secs / 3600, secs % 3600 / 60, secs % 60, fraction, z)
  }

  lemma SecondsAddUp(t: int)
    ensures t / 86400 * 86400 + (t % 86400 / 3600 * 3600 + t % 86400 % 3600 / 60 * 60 + t % 86400 % 60) == t
  {
    Mod60(t % 86400 % 3600, 60 * (t % 86400 / 3600));
  }

  lemma ZoneIsShort(z: Zone)
    requires z.Shifted? ==> z.hours < 100 && z.minutes < 60
    ensures -360000 < ZoneSeconds(z) < 360000
  {
  }

  /** An instant written to the second, in any zone and with any fraction, reads back as itself. */
  lemma ReadStampOf(e: int, fraction: Option<string>, z: Zone)
    requires MIN_I64 <= e <= MAX_I64 && (fraction.Some? ==> AllDigits(fraction.value))
    requires z.Shifted? ==> z.hours < 100 && z.minutes < 60
    requires LocalYear(e, ZoneSeconds(z)) >= 0
    ensures var t := StampOf(e, fraction, z); IsStamp(t) && ParseIsoEpoch(WriteStamp(t)) == Some(e)
  {
    hide CivilFromDays, Days, WriteStamp, ParseIsoEpoch, ZoneSeconds, AllDigits, LocalYear;
    ZoneIsShort(z);
    var c := LocalDate(e, ZoneSeconds(z));
    ReadStamp(StampOf(e, fraction, z));
    SecondsAddUp(e + ZoneSeconds(z));
  }
}
