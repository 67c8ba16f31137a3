/** Characters and text as the sources read them. */
module Texts {

  /** Unicode White_Space, which Rust's `trim` removes. */
  predicate IsWhite(c: char) {
    || '\t' <= c <= '\r' || c == ' ' || c == '\U{85}' || c == '\U{A0}' || c == '\U{1680}'
    || '\U{2000}' <= c <= '\U{200A}' || c == '\U{2028}' || c == '\U{2029}' || c == '\U{202F}'
    || c == '\U{205F}' || c == '\U{3000}'
  }

  function TrimStart(s: string): (r: string)
    ensures |r| <= |s| && r == s[|s| - |r|..]
    ensures r != [] ==> !IsWhite(r[0])
  {
    if s != [] && IsWhite(s[0]) then TrimStart(s[1..]) else s
  }

  function TrimEnd(s: string): (r: string)
    ensures r <= s
    ensures r != [] ==> !IsWhite(r[|r| - 1])
  {
    if s != [] && IsWhite(s[|s| - 1]) then TrimEnd(s[..|s| - 1]) else s
  }

  /** Rust's `trim`. */
  function Trim(s: string): (r: string)
    ensures r != [] ==> !IsWhite(r[0]) && !IsWhite(r[|r| - 1])
  {
    TrimEnd(TrimStart(s))
  }

  lemma TrimIsIdle(s: string)
    requires s != [] ==> !IsWhite(s[0]) && !IsWhite(s[|s| - 1])
    ensures Trim(s) == s
  {
  }

  ghost predicate AllWhite(s: string) {
    forall i :: 0 <= i < |s| ==> IsWhite(s[i])
  }

  lemma {:induction false} TrimStartAround(a: string, s: string)
    requires AllWhite(a) && s != [] && !IsWhite(s[0])
    ensures TrimStart(a + s) == s
  {
    if a == [] {
      assert a + s == s;
    } else {
      TrimStartAround(a[1..], s);
      assert (a + s)[1..] == a[1..] + s && (a + s)[0] == a[0];
    }
  }

  lemma {:induction false} TrimEndAround(s: string, b: string)
    requires AllWhite(b) && s != [] && !IsWhite(s[|s| - 1])
    ensures TrimEnd(s + b) == s
  {
    if b == [] {
      assert s + b == s;
    } else {
      var n := |b| - 1;
      TrimEndAround(s, b[..n]);
      assert (s + b)[..|s + b| - 1] == s + b[..n] && (s + b)[|s + b| - 1] == b[n];
    }
  }

  /** White space around text comes off. */
  lemma TrimAround(a: string, s: string, b: string)
    requires AllWhite(a) && AllWhite(b) && s != [] && !IsWhite(s[0]) && !IsWhite(s[|s| - 1])
    ensures Trim(a + s + b) == s
  {
    assert a + s + b == a + (s + b);
    TrimStartAround(a, s + b);
    TrimEndAround(s, b);
  }

  lemma {:induction false} TrimStartRemoves(s: string)
    ensures AllWhite(s[..|s| - |TrimStart(s)|])
  {
    if s != [] && IsWhite(s[0]) {
      TrimStartRemoves(s[1..]);
      var k := |s| - |TrimStart(s)|;
      assert s[..k] == [s[0]] + s[1..][..k - 1];
    }
  }

  lemma {:induction false} TrimEndRemoves(s: string)
    ensures AllWhite(s[|TrimEnd(s)|..])
  {
    if s != [] && IsWhite(s[|s| - 1]) {
      TrimEndRemoves(s[..|s| - 1]);
      assert s[|TrimEnd(s)|..] == s[..|s| - 1][|TrimEnd(s)|..] + [s[|s| - 1]];
    }
  }

  /** Trimming takes white space off both ends and nothing else. */
  lemma TrimSplits(s: string) returns (a: string, b: string)
    ensures s == a + Trim(s) + b && AllWhite(a) && AllWhite(b)
  {
    hide AllWhite, IsWhite, TrimStart, TrimEnd;
    var t := TrimStart(s);
    TrimStartRemoves(s);
    TrimEndRemoves(t);
    var n := |TrimEnd(t)|;
    a, b := s[..|s| - |t|], t[n..];
    assert s == a + t;
    assert t == t[..n] + b && t[..n] == TrimEnd(t);
  }

  /** The 25 code points of White_Space. */
  lemma WhiteMeans(c: char)
    ensures IsWhite(c) <==>
            var n := c as int;
            || n in {9, 10, 11, 12, 13, 32, 133, 160, 5760, 8232, 8233, 8239, 8287, 12288}
            || n in {8192, 8193, 8194, 8195, 8196, 8197, 8198, 8199, 8200, 8201, 8202}
  {
  }

  // ----- ASCII case

  /** Equal but for the case of ASCII letters: the second may have the small letter where the first has the capital. */
  ghost predicate SameLetters(s: string, t: string) {
    && |s| == |t|
    && forall i :: 0 <= i < |s| ==> s[i] == t[i] || (65 <= s[i] as int <= 90 && t[i] as int == s[i] as int + 32)
  }

  ghost predicate NoCapitals(s: string) {
    forall i :: 0 <= i < |s| ==> !(65 <= s[i] as int <= 90)
  }

  /** Lowering keeps the letters and leaves no capital, and is determined by that. */
  lemma LowerMeans(s: string, t: string)
    ensures Lower(s) == t <==> SameLetters(s, t) && NoCapitals(t)
  {
    forall i | 0 <= i < |s| ensures LowerChar(s[i]) as int == if 65 <= s[i] as int <= 90 then s[i] as int + 32 else s[i] as int
    {
    }
  }

  function LowerChar(c: char): char {
    if 'A' <= c <= 'Z' then c + ('a' - 'A') else c
  }

  /** `to_ascii_lowercase` */
  function Lower(s: string): (r: string)
    ensures |r| == |s|
    ensures forall i :: 0 <= i < |s| ==> r[i] == LowerChar(s[i])
  {
    seq(|s|, i requires 0 <= i < |s| => LowerChar(s[i]))
  }
}
