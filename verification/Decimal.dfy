/** Decimal text: what Rust's integer formatting writes and its parsing reads. */
module Decimal {
  import opened Wrappers

  predicate IsDigit(c: char) {
    '0' <= c <= '9'
  }

  predicate AllDigits(s: string) {
    forall i :: 0 <= i < |s| ==> IsDigit(s[i])
  }

  function DigitOf(d: nat): char
    requires d < 10
  {
    '0' + (d as char)
  }

  function ValueOf(c: char): nat
    requires IsDigit(c)
  {
    (c - '0') as nat
  }

  /** `{n}` */
  function Write(n: nat): (s: string)
    ensures s != [] && AllDigits(s)
  {
    if n < 10 then [DigitOf(n)] else Write(n / 10) + [DigitOf(n % 10)]
  }

  function Number(s: string): nat
    requires AllDigits(s)
  {
    if s == [] then 0 else 10 * Number(s[..|s| - 1]) + ValueOf(s[|s| - 1])
  }

  function Zeros(n: nat): (s: string)
    ensures |s| == n && AllDigits(s)
  {
    seq(n, _ => '0')
  }

  /** `{n:0w}` */
  function Padded(n: nat, w: nat): (s: string)
    ensures s != [] && AllDigits(s)
  {
    var s := Write(n);
    if |s| < w then Zeros(w - |s|) + s else s
  }

  lemma {:induction false} NumberOfWritten(n: nat)
    ensures Number(Write(n)) == n
  {
    if n >= 10 {
      NumberOfWritten(n / 10);
      assert Write(n)[..|Write(n)| - 1] == Write(n / 10);
    } else {
      assert [DigitOf(n)][..0] == [];
    }
  }

  /** Leading zeros do not change the number. */
  lemma {:induction false} NumberIgnoresZeros(k: nat, s: string)
    requires AllDigits(s)
    ensures AllDigits(Zeros(k) + s) && Number(Zeros(k) + s) == Number(s)
  {
    var t := Zeros(k) + s;
    if s == [] {
      assert t == Zeros(k);
      NumberOfZeros(k);
    } else {
      assert t[..|t| - 1] == Zeros(k) + s[..|s| - 1];
      NumberIgnoresZeros(k, s[..|s| - 1]);
    }
  }

  lemma {:induction false} NumberOfZeros(k: nat)
    ensures Number(Zeros(k)) == 0
  {
    if k > 0 {
      assert Zeros(k)[..k - 1] == Zeros(k - 1);
      NumberOfZeros(k - 1);
    }
  }

  lemma NumberOfPadded(n: nat, w: nat)
    ensures Number(Padded(n, w)) == n
  {
    NumberOfWritten(n);
    if |Write(n)| < w {
      NumberIgnoresZeros(w - |Write(n)|, Write(n));
    }
  }

  lemma PaddedHasTwoDigits(n: nat)
    requires n < 100
    ensures |Padded(n, 2)| == 2
  {
    if n >= 10 {
      assert |Write(n / 10)| == 1;
    }
  }

  const MAX_I64: int := 0x7fff_ffff_ffff_ffff
  const MIN_I64: int := -0x8000_0000_0000_0000

  /** `parse::<i64>()`: an optional sign, at least one digit, nothing else, in range. */
  function ParseI64(s: string): Option<int> {
    var signed := s != [] && (s[0] == '-' || s[0] == '+');
    var digits := if signed then s[1..] else s;
    if digits == [] || !AllDigits(digits) then None
    else
      var n: int := Number(digits);
      var v := if signed && s[0] == '-' then -n else n;
      if MIN_I64 <= v <= MAX_I64 then Some(v) else None
  }

  lemma ParsePadded(n: nat, w: nat)
    requires n <= MAX_I64
    ensures ParseI64(Padded(n, w)) == Some(n)
  {
    NumberOfPadded(n, w);
    assert IsDigit(Padded(n, w)[0]);
  }

  // ----- exactly which texts

  lemma {:induction false} NumberIsPositive(s: string)
    requires AllDigits(s) && s != [] && s[0] != '0'
    ensures Number(s) > 0
  {
    if |s| > 1 {
      NumberIsPositive(s[..|s| - 1]);
    }
  }

  lemma {:induction false} WriteStarts(n: nat)
    requires n > 0
    ensures Write(n)[0] != '0'
  {
    if n >= 10 {
      WriteStarts(n / 10);
      assert Write(n)[0] == Write(n / 10)[0];
    }
  }

  lemma {:induction false} SameNumberSameText(s: string, t: string)
    requires AllDigits(s) && AllDigits(t) && s != [] && t != [] && Number(s) == Number(t)
    requires (|s| > 1 ==> s[0] != '0') && (|t| > 1 ==> t[0] != '0')
    ensures s == t
  {
    var m, n := |s| - 1, |t| - 1;
    LastDigit(s, t);
    assert s == s[..m] + [s[m]] && t == t[..n] + [t[n]];
    if m == 0 && n == 0 {
    } else if m == 0 {
      NumberIsPositive(t[..n]);
    } else if n == 0 {
      NumberIsPositive(s[..m]);
    } else {
      SameNumberSameText(s[..m], t[..n]);
    }
  }

  lemma LastDigit(s: string, t: string)
    requires AllDigits(s) && AllDigits(t) && s != [] && t != [] && Number(s) == Number(t)
    ensures s[|s| - 1] == t[|t| - 1] && Number(s[..|s| - 1]) == Number(t[..|t| - 1])
  {
    var a, b := Number(s[..|s| - 1]), Number(t[..|t| - 1]);
    var x, y := ValueOf(s[|s| - 1]), ValueOf(t[|t| - 1]);
    Digits(a, x, b, y);
  }

  lemma Digits(a: nat, x: nat, b: nat, y: nat)
    requires 10 * a + x == 10 * b + y && x < 10 && y < 10
    ensures a == b && x == y
  {
  }

  /** What is written for n is the one text of digits that means n and does not start with a needless zero. */
  lemma WriteMeans(n: nat, s: string)
    ensures s == Write(n) <==> s != [] && AllDigits(s) && Number(s) == n && (|s| > 1 ==> s[0] != '0')
  {
    NumberOfWritten(n);
    if n > 0 {
      WriteStarts(n);
    }
    if s != [] && AllDigits(s) && Number(s) == n && (|s| > 1 ==> s[0] != '0') {
      SameNumberSameText(s, Write(n));
    }
  }

  /** A signed decimal text, in any of its spellings. */
  ghost predicate SpellsInt(s: string, v: int) {
    || (s != [] && AllDigits(s) && v == Number(s))
    || (|s| > 1 && s[0] == '+' && AllDigits(s[1..]) && v == Number(s[1..]))
    || (|s| > 1 && s[0] == '-' && AllDigits(s[1..]) && v + Number(s[1..]) == 0)
  }

  /** In the range of 64 bits. */
  ghost predicate ReadsAs(s: string, v: int) {
    SpellsInt(s, v) && -9223372036854775808 <= v <= 9223372036854775807
  }

  /** The parse reads exactly those. */
  lemma ParseMeans(s: string, v: int)
    ensures ParseI64(s) == Some(v) <==> ReadsAs(s, v)
  {
    if s != [] {
      assert s[0] == '+' || s[0] == '-' ==> !IsDigit(s[0]);
    }
  }

  /** Padding fills up with zeros to the width, and a number that is wider is written in full. */
  lemma PaddedMeans(n: nat, w: nat)
    ensures var s := Padded(n, w);
            && AllDigits(s) && Number(s) == n
            && (|s| == w || (|s| > w && s == Write(n)))
  {
    NumberOfPadded(n, w);
  }
}
