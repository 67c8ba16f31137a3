/** The loopback URL rule of console-tui/src/pointer.rs, and the canonical form it yields. */
module Pointer {
  import opened Wrappers
  import opened Seqs
  import opened Texts
  import opened Decimal

  datatype Refusal = NotUrl | NotHttp | NotOriginOnly | NotLocal

  // ----- the code

  /** `parse::<u16>()`: an optional plus, at least one digit, in range. */
  function ParseU16(s: string): Option<nat> {
    var digits := if s != [] && s[0] == '+' then s[1..] else s;
    if digits == [] || !AllDigits(digits) then None
    else if Number(digits) <= 65535 then Some(Number(digits)) else None
  }

  predicate EndsAuthority(c: char) {
    c == '/' || c == '?' || c == '#'
  }

  predicate IsBracket(c: char) {
    c == ']'
  }

  /** `rsplit_once(':')` */
  function LastColon(s: string): (r: Option<nat>)
    ensures r.Some? ==> r.value < |s| && s[r.value] == ':' && forall j :: r.value < j < |s| ==> s[j] != ':'
    ensures r.None? ==> ':' !in s
  {
    if s == [] then None
    else if s[|s| - 1] == ':' then Some(|s| - 1)
    else LastColon(s[..|s| - 1])
  }

  /** Host and port text of an authority: a bracketed address may be followed by a port only. */
  function HostPort(authority: string): Result<(string, Option<string>), Refusal> {
    if authority != [] && authority[0] == '[' then
      var stripped := authority[1..];
      var k := Skip(stripped, IsBracket);
      if k == |stripped| then Err(NotUrl)
      else
        var after := stripped[k + 1..];
        if after != [] && after[0] != ':' then Err(NotUrl)
        else Ok(("[" + Lower(stripped[..k]) + "]", if after == [] then None else Some(after[1..])))
    else
      var k := LastColon(authority);
      if k.Some? then Ok((Lower(authority[..k.value]), Some(authority[k.value + 1..])))
      else Ok((Lower(authority), None))
  }

  /** The port text: absent or empty means none; otherwise a nonzero port. */
  function PortOf(port: Option<string>): Result<Option<nat>, Refusal> {
    if port.None? || port.value == "" then Ok(None)
    else
      var n := ParseU16(port.value);
      if n.Some? && n.value > 0 then Ok(n) else Err(NotUrl)
  }

  const HOSTS: seq<string> := ["127.0.0.1", "[::1]", "localhost"]

  function DefaultPort(scheme: string): nat {
    if scheme == "https" then 443 else 80
  }

  function Assemble(scheme: string, host: string, port: Option<nat>): string {
    if port.Some? && port.value != DefaultPort(scheme) then scheme + "://" + host + ":" + Write(port.value)
    else scheme + "://" + host
  }

  function FromAuthority(scheme: string, authority: string, tail: string): Result<string, Refusal> {
    if '@' in authority then Err(NotOriginOnly)
    else
      var hp :- HostPort(authority);
      if hp.0 == "" then Err(NotUrl)
      else
        var port :- PortOf(hp.1);
        if hp.0 !in HOSTS then Err(NotLocal)
        else if tail != "" && tail != "/" then Err(NotOriginOnly)
        else Ok(Assemble(scheme, hp.0, port))
  }

  function LoopbackOrigin(raw: string): Result<string, Refusal> {
    var url := Trim(raw);
    var k := Find(url, "://");
    if k.None? then Err(NotUrl)
    else
      var scheme := Lower(url[..k.value]);
      var rest := url[k.value + 3..];
      if scheme != "http" && scheme != "https" then Err(NotHttp)
      else
        var end := Skip(rest, EndsAuthority);
        FromAuthority(scheme, rest[..end], rest[end..])
  }

  // ----- what a text means: scheme, host and effective port, however it is spelled

  datatype Origin = Origin(scheme: string, host: string, port: nat)

  predicate IsLocal(host: string) {
    host == "127.0.0.1" || host == "[::1]" || host == "localhost"
  }

  ghost predicate IsOrigin(o: Origin) {
    (o.scheme == "http" || o.scheme == "https") && IsLocal(o.host) && 1 <= o.port <= 65535
  }

  /** The port that goes without saying. */
  predicate IsDefault(scheme: string, port: nat) {
    (scheme == "http" && port == 80) || (scheme == "https" && port == 443)
  }

  /** The canonical text: the default port is not written. */
  function Canonical(o: Origin): string {
    if IsDefault(o.scheme, o.port) then o.scheme + "://" + o.host
    else o.scheme + "://" + o.host + ":" + Write(o.port)
  }

  /** A port number as it may be written: a plus is allowed, and so are leading zeros. */
  ghost predicate SpellsNumber(t: string, n: nat) {
    var digits := if t != "" && t[0] == '+' then t[1..] else t;
    digits != "" && AllDigits(digits) && Number(digits) == n
  }

  /** The spellings of a port after a host: nothing or a bare colon for the default, else a colon and the number. */
  ghost predicate SpellsPort(p: string, o: Origin) {
    || (IsDefault(o.scheme, o.port) && (p == "" || p == ":"))
    || (|p| > 1 && p[0] == ':' && SpellsNumber(p[1..], o.port))
  }

  datatype Spelling = Spelling(before: string, scheme: string, host: string, port: string, slash: string, after: string)

  ghost predicate Spells(x: Spelling, o: Origin) {
    && IsOrigin(o) && AllWhite(x.before) && AllWhite(x.after)
    && SameLetters(x.scheme, o.scheme) && SameLetters(x.host, o.host)
    && SpellsPort(x.port, o) && (x.slash == "" || x.slash == "/")
  }

  function TextOf(x: Spelling): string {
    x.before + (x.scheme + "://" + (x.host + x.port + x.slash)) + x.after
  }

  // ----- reading a spelling

  lemma HostsAreLocal(host: string)
    ensures host in HOSTS <==> IsLocal(host)
  {
  }

  lemma DefaultIs(scheme: string, port: nat)
    requires scheme == "http" || scheme == "https"
    ensures IsDefault(scheme, port) <==> port == DefaultPort(scheme)
  {
  }

  lemma OriginHasNoCapitals(o: Origin)
    requires IsOrigin(o)
    ensures NoCapitals(o.scheme) && NoCapitals(o.host)
  {
  }

  lemma SpelledLetters(x: Spelling, o: Origin)
    requires IsOrigin(o)
    ensures SameLetters(x.scheme, o.scheme) <==> Lower(x.scheme) == o.scheme
    ensures SameLetters(x.host, o.host) <==> Lower(x.host) == o.host
  {
    OriginHasNoCapitals(o);
    LowerMeans(x.scheme, o.scheme);
    LowerMeans(x.host, o.host);
  }

  lemma SpelledU16(t: string, n: nat)
    ensures ParseU16(t) == Some(n) <==> SpellsNumber(t, n) && n <= 65535
  {
  }

  /** A character that ends no part of a URL and is not trimmed. */
  predicate Plain(c: char) {
    c != ':' && !EndsAuthority(c) && c != '@' && !IsWhite(c) && c != '['
  }

  ghost predicate AllPlain(s: string) {
    forall i :: 0 <= i < |s| ==> Plain(s[i])
  }

  lemma LowerIsPlain(s: string)
    requires AllPlain(Lower(s))
    ensures AllPlain(s)
  {
    forall i | 0 <= i < |s| ensures Plain(s[i]) {
      assert Plain(Lower(s)[i]);
    }
  }

  lemma DigitsArePlain(s: string)
    requires AllDigits(s)
    ensures AllPlain(s)
  {
  }

  lemma SchemeText(s: string)
    requires Lower(s) == "http" || Lower(s) == "https"
    ensures AllPlain(s) && s != []
  {
    LowerIsPlain(s);
  }

  lemma HostText(h: string)
    requires IsLocal(Lower(h))
    ensures AllPlain(h) || h == "[::1]"
    ensures h != []
  {
    if Lower(h) == "[::1]" {
      assert |h| == 5;
      forall i | 0 <= i < 5 ensures h[i] == "[::1]"[i] {
        assert LowerChar(h[i]) == Lower(h)[i];
      }
    } else {
      LowerIsPlain(h);
    }
  }

  lemma PortText(p: string, o: Origin)
    requires SpellsPort(p, o)
    ensures p != "" ==> p[0] == ':' && AllPlain(p[1..])
  {
    if |p| > 1 {
      var t := p[1..];
      if t[0] == '+' {
        DigitsArePlain(t[1..]);
        assert t == ['+'] + t[1..];
      } else {
        DigitsArePlain(t);
      }
    }
  }

  lemma PlainHasNoColon(s: string)
    requires AllPlain(s)
    ensures ':' !in s
  {
  }

  lemma {:induction false} LastColonOf(h: string, t: string)
    requires ':' !in t
    ensures LastColon(h + ":" + t) == Some(|h|)
  {
    var s := h + ":" + t;
    if t == [] {
      assert s[|s| - 1] == ':';
    } else {
      var n := |t| - 1;
      LastColonOf(h, t[..n]);
      assert t[n] in t && s[|s| - 1] == t[n] && s[..|s| - 1] == h + ":" + t[..n];
    }
  }

  /** The host and the port text of a spelled authority. */
  lemma PlainHostPort(h: string, p: string)
    requires AllPlain(h) && h != [] && (p != "" ==> p[0] == ':' && AllPlain(p[1..]))
    ensures HostPort(h + p) == Ok((Lower(h), if p == "" then None else Some(p[1..])))
  {
    var a := h + p;
    assert a[0] == h[0] && Plain(h[0]);
    if p == "" {
      assert a == h;
    } else {
      PlainHasNoColon(p[1..]);
      LastColonOf(h, p[1..]);
      assert a == h + ":" + p[1..];
      assert a[..|h|] == h && a[|h| + 1..] == p[1..];
    }
  }

  lemma BracketHostPort(p: string)
    requires p != "" ==> p[0] == ':'
    ensures HostPort("[::1]" + p) == Ok(("[::1]", if p == "" then None else Some(p[1..])))
  {
    var stripped := ("[::1]" + p)[1..];
    assert stripped == "::1]" + p;
    SkipIs(stripped, IsBracket, 3);
    assert stripped[..3] == "::1" && stripped[4..] == p;
    assert Lower("::1") == "::1";
    assert "[" + "::1" + "]" == "[::1]";
  }

  lemma HostPortReads(h: string, p: string, o: Origin)
    requires IsLocal(Lower(h)) && SpellsPort(p, o)
    ensures HostPort(h + p) == Ok((Lower(h), if p == "" then None else Some(p[1..])))
  {
    HostText(h);
    PortText(p, o);
    if AllPlain(h) {
      PlainHostPort(h, p);
    } else {
      BracketHostPort(p);
      assert Lower("[::1]") == "[::1]";
    }
  }

  lemma PortReads(p: string, o: Origin)
    requires IsOrigin(o) && SpellsPort(p, o)
    ensures var q := PortOf(if p == "" then None else Some(p[1..]));
            q == Ok(Some(o.port)) || (q == Ok(None) && IsDefault(o.scheme, o.port))
  {
    if |p| > 1 {
      SpelledU16(p[1..], o.port);
    }
    if p == ":" {
      assert p[1..] == "";
    }
  }

  lemma AuthorityText(h: string, p: string, o: Origin)
    requires IsLocal(Lower(h)) && SpellsPort(p, o)
    ensures forall i :: 0 <= i < |h + p| ==> !EndsAuthority((h + p)[i]) && (h + p)[i] != '@' && !IsWhite((h + p)[i])
    ensures h + p != ""
  {
    HostText(h);
    PortText(p, o);
    forall i | 0 <= i < |h + p|
      ensures !EndsAuthority((h + p)[i]) && (h + p)[i] != '@' && !IsWhite((h + p)[i])
    {
      if i > |h| {
        assert (h + p)[i] == p[1..][i - |h| - 1];
      }
    }
  }

  lemma AuthorityReads(h: string, p: string, tail: string, o: Origin)
    requires IsOrigin(o) && Lower(h) == o.host && SpellsPort(p, o) && (tail == "" || tail == "/")
    ensures FromAuthority(o.scheme, h + p, tail) == Ok(Canonical(o))
  {
    hide HostPort, PortOf, SpellsPort, Lower, EndsAuthority, IsWhite;
    AuthorityText(h, p, o);
    HostPortReads(h, p, o);
    PortReads(p, o);
    HostText(h);
  }

  /** A URL is cut at its first "://". */
  lemma ColonFreeEnds(scheme: string, rest: string)
    requires ':' !in scheme
    ensures Find(scheme + "://" + rest, "://") == Some(|scheme|)
    ensures (scheme + "://" + rest)[..|scheme|] == scheme && (scheme + "://" + rest)[|scheme| + 3..] == rest
  {
    var url := scheme + "://" + rest;
    assert url[|scheme|..|scheme| + 3] == "://";
    forall j | 0 <= j < |scheme| ensures !At(url, "://", j) {
      assert url[j] == scheme[j] && scheme[j] in scheme;
      assert j + 3 <= |url| && url[j..j + 3][0] == url[j];
    }
    FindIs(url, "://", |scheme|);
  }

  lemma AuthorityEnds(a: string, tail: string)
    requires forall i :: 0 <= i < |a| ==> !EndsAuthority(a[i])
    requires tail == "" || tail == "/"
    ensures Skip(a + tail, EndsAuthority) == |a| && (a + tail)[..|a|] == a && (a + tail)[|a|..] == tail
  {
    SkipIs(a + tail, EndsAuthority, |a|);
  }

  function UrlOf(x: Spelling): string {
    x.scheme + "://" + (x.host + x.port + x.slash)
  }

  lemma UrlIsTrimmed(x: Spelling, o: Origin)
    requires Spells(x, o)
    ensures Trim(TextOf(x)) == UrlOf(x)
  {
    hide Trim, SpellsPort, Lower, EndsAuthority, SameLetters, IsLocal;
    SpelledLetters(x, o);
    SchemeText(x.scheme);
    AuthorityText(x.host, x.port, o);
    var url := UrlOf(x);
    var a := x.host + x.port;
    assert url[0] == x.scheme[0] && Plain(x.scheme[0]);
    if x.slash == "" {
      assert url == x.scheme + "://" + a;
      assert url[|url| - 1] == a[|a| - 1];
    } else {
      assert url[|url| - 1] == '/';
    }
    TrimAround(x.before, url, x.after);
  }

  /** Every spelling of an origin is accepted, and comes back as the origin's one canonical text. */
  lemma SpellingIsAccepted(x: Spelling, o: Origin)
    requires Spells(x, o)
    ensures LoopbackOrigin(TextOf(x)) == Ok(Canonical(o))
  {
    hide Trim, SpellsPort, Lower, FromAuthority, Find, Skip, IsWhite, EndsAuthority, TextOf, Canonical, SameLetters,
         IsLocal;
    UrlIsTrimmed(x, o);
    SpelledLetters(x, o);
    SchemeText(x.scheme);
    var a := x.host + x.port;
    PlainHasNoColon(x.scheme);
    ColonFreeEnds(x.scheme, a + x.slash);
    AuthorityText(x.host, x.port, o);
    AuthorityEnds(a, x.slash);
    AuthorityReads(x.host, x.port, x.slash, o);
  }

  // ----- what is accepted is a spelling

  lemma HostPortSplits(a: string) returns (h: string, p: string)
    requires HostPort(a).Ok?
    ensures a == h + p && Lower(h) == HostPort(a).value.0
    ensures p != "" ==> p[0] == ':'
    ensures HostPort(a).value.1 == if p == "" then None else Some(p[1..])
  {
    if a != [] && a[0] == '[' {
      var stripped := a[1..];
      var k := Skip(stripped, IsBracket);
      h, p := a[..k + 2], stripped[k + 1..];
      assert h == "[" + stripped[..k] + "]";
    } else {
      var k := LastColon(a);
      h, p := if k.Some? then a[..k.value] else a, if k.Some? then a[k.value..] else "";
    }
  }

  lemma PortSplits(p: string, scheme: string, host: string) returns (o: Origin)
    requires (scheme == "http" || scheme == "https") && IsLocal(host) && (p != "" ==> p[0] == ':')
    requires PortOf(if p == "" then None else Some(p[1..])).Ok?
    ensures IsOrigin(o) && o.scheme == scheme && o.host == host && SpellsPort(p, o)
    ensures Assemble(scheme, host, PortOf(if p == "" then None else Some(p[1..])).value) == Canonical(o)
  {
    var q := PortOf(if p == "" then None else Some(p[1..])).value;
    o := Origin(scheme, host, if q.Some? then q.value else DefaultPort(scheme));
    DefaultIs(scheme, o.port);
    if |p| > 1 {
      SpelledU16(p[1..], o.port);
    }
  }

  lemma AuthoritySplits(scheme: string, a: string, tail: string) returns (h: string, p: string, o: Origin)
    requires (scheme == "http" || scheme == "https") && FromAuthority(scheme, a, tail).Ok?
    ensures a == h + p && IsOrigin(o) && o.scheme == scheme && Lower(h) == o.host && SpellsPort(p, o)
    ensures (tail == "" || tail == "/") && FromAuthority(scheme, a, tail) == Ok(Canonical(o))
  {
    hide HostPort, PortOf, SpellsPort, Lower, Canonical, Assemble, IsOrigin;
    h, p := HostPortSplits(a);
    HostsAreLocal(HostPort(a).value.0);
    o := PortSplits(p, scheme, HostPort(a).value.0);
  }

  lemma UrlSplits(url: string, k: nat, end: nat)
    requires At(url, "://", k) && end <= |url| - (k + 3)
    ensures var rest := url[k + 3..];
            url == url[..k] + "://" + rest && rest == rest[..end] + rest[end..]
  {
    assert url == url[..k] + url[k..k + 3] + url[k + 3..];
  }

  lemma UrlOfParts(x: Spelling, url: string, rest: string, a: string)
    requires url == x.scheme + "://" + rest && rest == a + x.slash && a == x.host + x.port
    ensures UrlOf(x) == url && TextOf(x) == x.before + url + x.after
  {
  }

  /** Whatever is accepted is a spelling of an origin, and the answer is that origin's canonical text. */
  lemma AcceptedIsSpelling(raw: string) returns (x: Spelling, o: Origin)
    requires LoopbackOrigin(raw).Ok?
    ensures raw == TextOf(x) && Spells(x, o) && LoopbackOrigin(raw) == Ok(Canonical(o))
  {
    hide At, Trim, SpellsPort, FromAuthority, Find, Skip, IsWhite, EndsAuthority, Canonical, AllWhite, IsOrigin, TextOf,
         UrlOf, SameLetters, Lower;
    var before, after := TrimSplits(raw);
    var url := Trim(raw);
    FindSpec(url, "://");
    var k := Find(url, "://").value;
    var rest := url[k + 3..];
    var end := Skip(rest, EndsAuthority);
    UrlSplits(url, k, end);
    var h, p;
    h, p, o := AuthoritySplits(Lower(url[..k]), rest[..end], rest[end..]);
    x := Spelling(before, url[..k], h, p, rest[end..], after);
    UrlOfParts(x, url, rest, rest[..end]);
    SpelledLetters(x, o);
  }

  // ----- the canonical form

  function CanonicalSpelling(o: Origin): Spelling {
    Spelling("", o.scheme, o.host, if IsDefault(o.scheme, o.port) then "" else ":" + Write(o.port), "", "")
  }

  lemma LoweredNames(o: Origin)
    requires IsOrigin(o)
    ensures Lower(o.scheme) == o.scheme && Lower(o.host) == o.host
  {
  }

  lemma CanonicalPortSpells(o: Origin)
    requires IsOrigin(o)
    ensures SpellsPort(CanonicalSpelling(o).port, o)
  {
    var w := Write(o.port);
    NumberOfWritten(o.port);
    assert IsDigit(w[0]);
    assert (":" + w)[1..] == w;
  }

  lemma CanonicalIsSpelling(o: Origin)
    requires IsOrigin(o)
    ensures Spells(CanonicalSpelling(o), o) && TextOf(CanonicalSpelling(o)) == Canonical(o)
  {
    hide Lower, SpellsPort, Write, IsWhite, IsOrigin, SameLetters, IsDefault;
    LoweredNames(o);
    SpelledLetters(CanonicalSpelling(o), o);
    CanonicalPortSpells(o);
  }

  lemma SpellsOrigin(x: Spelling, o: Origin)
    requires Spells(x, o)
    ensures IsOrigin(o)
  {
  }

  /** The canonical text determines the origin. */
  lemma CanonicalIsInjective(o: Origin, p: Origin)
    requires IsOrigin(o) && IsOrigin(p) && Canonical(o) == Canonical(p)
    ensures o == p
  {
    hide Canonical, LastColon, HostPort, ParseU16, Find, Lower, TextOf, IsWhite, EndsAuthority;
    var x, y := CanonicalSpelling(o), CanonicalSpelling(p);
    CanonicalParts(o);
    CanonicalParts(p);
    CanonicalPort(o);
    CanonicalPort(p);
  }

  lemma CanonicalUrl(o: Origin)
    ensures var x := CanonicalSpelling(o); Canonical(o) == x.scheme + "://" + (x.host + x.port) && x.scheme == o.scheme
  {
    hide IsDefault, Write;
  }

  lemma CanonicalParts(o: Origin)
    requires IsOrigin(o)
    ensures Find(Canonical(o), "://") == Some(|o.scheme|)
    ensures |o.scheme| + 3 <= |Canonical(o)| && Canonical(o)[..|o.scheme|] == o.scheme
    ensures var x := CanonicalSpelling(o);
            HostPort(Canonical(o)[|o.scheme| + 3..]) == Ok((o.host, if x.port == "" then None else Some(x.port[1..])))
  {
    hide HostPort, Find, IsWhite, EndsAuthority, Canonical, SameLetters, IsDefault, IsLocal, SpellsPort;
    var x := CanonicalSpelling(o);
    CanonicalIsSpelling(o);
    CanonicalUrl(o);
    LoweredNames(o);
    SchemeText(o.scheme);
    PlainHasNoColon(x.scheme);
    ColonFreeEnds(x.scheme, x.host + x.port);
    HostPortReads(x.host, x.port, o);
  }

  lemma CanonicalPort(o: Origin)
    ensures var x := CanonicalSpelling(o);
            if x.port == "" then IsDefault(o.scheme, o.port)
            else AllDigits(x.port[1..]) && Number(x.port[1..]) == o.port
  {
    NumberOfWritten(o.port);
    assert (":" + Write(o.port))[1..] == Write(o.port);
  }

  /** What a text denotes, in any of its spellings. */
  ghost predicate Denotes(raw: string, o: Origin) {
    exists x :: raw == TextOf(x) && Spells(x, o)
  }

  /** The function answers an origin's canonical text for the spellings of that origin and for nothing else. */
  lemma AnswersExactly(raw: string, o: Origin)
    requires IsOrigin(o)
    ensures LoopbackOrigin(raw) == Ok(Canonical(o)) <==> Denotes(raw, o)
  {
    hide LoopbackOrigin, TextOf, Spells, Canonical, IsOrigin;
    if Denotes(raw, o) {
      var x :| raw == TextOf(x) && Spells(x, o);
      SpellingIsAccepted(x, o);
    } else if LoopbackOrigin(raw) == Ok(Canonical(o)) {
      var x, p := AcceptedIsSpelling(raw);
      SpellsOrigin(x, p);
      CanonicalIsInjective(o, p);
    }
  }

  /** A text is accepted exactly when it denotes an origin. */
  lemma AcceptedExactly(raw: string)
    ensures LoopbackOrigin(raw).Ok? <==> exists o :: Denotes(raw, o)
  {
    hide LoopbackOrigin, TextOf, Spells, Canonical, IsOrigin;
    if LoopbackOrigin(raw).Ok? {
      var x, o := AcceptedIsSpelling(raw);
      assert Denotes(raw, o);
    }
    forall o | Denotes(raw, o) ensures LoopbackOrigin(raw).Ok? {
      var x :| raw == TextOf(x) && Spells(x, o);
      SpellingIsAccepted(x, o);
    }
  }

  /** An accepted result is accepted again, unchanged. */
  lemma AcceptedIsFixed(raw: string)
    requires LoopbackOrigin(raw).Ok?
    ensures LoopbackOrigin(LoopbackOrigin(raw).value) == LoopbackOrigin(raw)
  {
    hide LoopbackOrigin, TextOf, Spells, Canonical;
    var x, o := AcceptedIsSpelling(raw);
    SpellsOrigin(x, o);
    CanonicalIsSpelling(o);
    SpellingIsAccepted(CanonicalSpelling(o), o);
  }

  /** Two accepted texts give the same answer exactly when scheme, host and effective port agree. */
  lemma SameAnswerSameOrigin(s: string, o: Origin, t: string, p: Origin)
    requires Denotes(s, o) && Denotes(t, p)
    ensures LoopbackOrigin(s) == LoopbackOrigin(t) <==> o == p
  {
    hide LoopbackOrigin, TextOf, Spells, Canonical, IsOrigin;
    var x :| s == TextOf(x) && Spells(x, o);
    var y :| t == TextOf(y) && Spells(y, p);
    SpellsOrigin(x, o);
    SpellsOrigin(y, p);
    SpellingIsAccepted(x, o);
    SpellingIsAccepted(y, p);
    if Canonical(o) == Canonical(p) {
      CanonicalIsInjective(o, p);
    }
  }

  // ----- ports, said of texts

  /** The answer carries a port exactly when it is neither 80 for http nor 443 for https. */
  lemma AnswerShowsPort(raw: string, o: Origin)
    requires Denotes(raw, o)
    ensures LoopbackOrigin(raw) ==
            if (o.scheme == "http" && o.port == 80) || (o.scheme == "https" && o.port == 443)
            then Ok(o.scheme + "://" + o.host) else Ok(o.scheme + "://" + o.host + ":" + Write(o.port))
  {
    hide LoopbackOrigin, TextOf, Spells;
    var x :| raw == TextOf(x) && Spells(x, o);
    SpellingIsAccepted(x, o);
  }

  /** A text without a port number denotes port 80 for http and port 443 for https. */
  lemma NoPortIsDefault(x: Spelling, o: Origin)
    requires Spells(x, o) && |x.port| <= 1
    ensures o.port == if o.scheme == "http" then 80 else 443
  {
  }

  // ----- every other text is refused, and why

  /** A port text that is given and is not a number from 1 to 65535. */
  ghost predicate BadPort(p: string) {
    |p| > 1 && forall n: nat :: SpellsNumber(p[1..], n) ==> n < 1 || n > 65535
  }

  lemma PortAnswer(p: string)
    requires p != "" ==> p[0] == ':'
    ensures var q := PortOf(if p == "" then None else Some(p[1..]));
            if BadPort(p) then q == Err(NotUrl) else q.Ok?
  {
    hide ParseU16, SpellsNumber;
    if |p| > 1 {
      var t := p[1..];
      forall n ensures ParseU16(t) == Some(n) <==> SpellsNumber(t, n) && n <= 65535 {
        SpelledU16(t, n);
      }
    }
  }

  /** Why an authority is refused, tested in this order. */
  ghost predicate AnswersAs(r: Result<string, Refusal>, at: bool, h: string, p: string, tail: string) {
    if at then r == Err(NotOriginOnly)
    else if h == "" then r == Err(NotUrl)
    else if BadPort(p) then r == Err(NotUrl)
    else if !IsLocal(h) then r == Err(NotLocal)
    else if tail != "" && tail != "/" then r == Err(NotOriginOnly)
    else r.Ok?
  }

  lemma SplitAnswers(scheme: string, a: string, h: string, p: string, tail: string)
    requires p != "" ==> p[0] == ':'
    requires HostPort(a) == Ok((h, if p == "" then None else Some(p[1..])))
    ensures AnswersAs(FromAuthority(scheme, a, tail), '@' in a, h, p, tail)
  {
    hide HostPort, PortOf, BadPort, IsLocal;
    PortAnswer(p);
    HostsAreLocal(h);
  }

  /** A host that is not bracketed, and what follows its last colon. */
  lemma PlainAnswers(scheme: string, h: string, p: string, tail: string)
    requires (h + p != "" ==> (h + p)[0] != '[') && (if p == "" then ':' !in h else p[0] == ':' && ':' !in p[1..])
    ensures AnswersAs(FromAuthority(scheme, h + p, tail), '@' in h + p, Lower(h), p, tail)
  {
    hide FromAuthority, AnswersAs;
    var a := h + p;
    if p == "" {
      assert a == h;
    } else {
      LastColonOf(h, p[1..]);
      assert a == h + ":" + p[1..] && a[..|h|] == h && a[|h| + 1..] == p[1..];
    }
    SplitAnswers(scheme, a, Lower(h), p, tail);
  }

  /** A bracketed host, and what follows its bracket: a port, or nothing. */
  lemma BracketAnswers(scheme: string, inner: string, p: string, tail: string)
    requires ']' !in inner
    ensures var a := "[" + inner + "]" + p;
            if p == "" || p[0] == ':' then
              AnswersAs(FromAuthority(scheme, a, tail), '@' in a, "[" + Lower(inner) + "]", p, tail)
            else FromAuthority(scheme, a, tail) == Err(if '@' in a then NotOriginOnly else NotUrl)
  {
    hide AnswersAs;
    var a := "[" + inner + "]" + p;
    var stripped := a[1..];
    assert stripped == inner + "]" + p && a[0] == '[';
    forall j | 0 <= j < |inner| ensures stripped[j] != ']' {
      assert stripped[j] == inner[j] && inner[j] in inner;
    }
    SkipIs(stripped, IsBracket, |inner|);
    assert stripped[..|inner|] == inner && stripped[|inner| + 1..] == p;
    if p == "" || p[0] == ':' {
      SplitAnswers(scheme, a, "[" + Lower(inner) + "]", p, tail);
    }
  }

  lemma OpenBracketIsRefused(scheme: string, inner: string, tail: string)
    requires ']' !in inner
    ensures FromAuthority(scheme, "[" + inner, tail) == Err(if '@' in "[" + inner then NotOriginOnly else NotUrl)
  {
    var a := "[" + inner;
    assert a[1..] == inner;
    SkipIs(inner, IsBracket, |inner|);
  }

  ghost predicate NoEnd(a: string) {
    '/' !in a && '?' !in a && '#' !in a
  }

  /** A text is cut at its first "://" and then at the first slash, question mark or number sign. */
  lemma TextIsCut(raw: string, scheme: string, a: string, tail: string)
    requires Trim(raw) == scheme + "://" + (a + tail) && ':' !in scheme && NoEnd(a)
    requires tail == "" || tail[0] == '/' || tail[0] == '?' || tail[0] == '#'
    ensures LoopbackOrigin(raw) ==
            if SameLetters(scheme, "http") then FromAuthority("http", a, tail)
            else if SameLetters(scheme, "https") then FromAuthority("https", a, tail)
            else Err(NotHttp)
  {
    hide Trim, FromAuthority, Find, SameLetters, Lower;
    var url := scheme + "://" + (a + tail);
    ColonFreeEnds(scheme, a + tail);
    forall i | 0 <= i < |a| ensures !EndsAuthority((a + tail)[i]) {
      assert (a + tail)[i] == a[i] && a[i] in a;
    }
    SkipIs(a + tail, EndsAuthority, |a|);
    assert (a + tail)[..|a|] == a && (a + tail)[|a|..] == tail;
    SchemeNames();
    LowerMeans(scheme, "http");
    LowerMeans(scheme, "https");
  }

  lemma SchemeNames()
    ensures NoCapitals("http") && NoCapitals("https")
  {
  }

  lemma NoSchemeIsRefused(raw: string)
    requires !Contains(Trim(raw), "://")
    ensures LoopbackOrigin(raw) == Err(NotUrl)
  {
    hide Trim, Find;
    FindDecidesContains(Trim(raw), "://");
  }
}
