/** The boundary search of console-tui/src/api_sandbox_docs.rs: a wrapping 64-bit sequence that always leaves the payload. */
module Boundary {
  import opened Bytes

  const WRAP: nat := 0x1_0000_0000_0000_0000
  const SEED: nat := 0x5a17_c0de

  /** Length limit of a Rust slice (isize::MAX). */
  const SLICE_LIMIT: nat := 0x8000_0000_0000_0000

  /** `n.wrapping_mul(31).wrapping_add(7)` */
  function Next(n: nat): (r: nat)
    ensures r < WRAP
  {
    ((31 * n) % WRAP + 7) % WRAP
  }

  function Orbit(k: nat): (n: nat)
    ensures n < WRAP
  {
    if k == 0 then SEED else Next(Orbit(k - 1))
  }

  // ----- lower-case hexadecimal, no leading zeros

  function Digit(d: nat): (b: byte)
    requires d < 16
  {
    if d < 10 then (48 + d) as byte else (87 + d) as byte
  }

  /** `{n:x}` */
  function Hex(n: nat): (h: seq<byte>)
    ensures h != []
  {
    if n < 16 then [Digit(n)] else Hex(n / 16) + [Digit(n % 16)]
  }

  lemma {:induction false} HexIsInjective(m: nat, n: nat)
    requires Hex(m) == Hex(n)
    ensures m == n
  {
    var h := Hex(m);
    assert h[|h| - 1] == Digit(m % 16) == Digit(n % 16);
    if m >= 16 && n >= 16 {
      assert Hex(m)[..|h| - 1] == Hex(m / 16) && Hex(n)[..|h| - 1] == Hex(n / 16);
      HexIsInjective(m / 16, n / 16);
    }
  }

  function Pow2(k: nat): (p: nat)
    ensures p > 0
  {
    if k == 0 then 1 else 2 * Pow2(k - 1)
  }

  function Pow31(k: nat): (p: nat)
    ensures p > 0
  {
    if k == 0 then 1 else 31 * Pow31(k - 1)
  }

  /** Sixty-bit numbers and above take sixteen digits. */
  lemma {:induction false} HexLength(n: nat, k: nat)
    requires Pow2(4 * k) <= n < Pow2(4 * k + 4)
    ensures |Hex(n)| == k + 1
  {
    PowersOfSixteen(k);
    if k > 0 {
      PowersOfSixteen(k - 1);
      HexLength(n / 16, k - 1);
    }
  }

  lemma PowersOfSixteen(k: nat)
    ensures Pow2(4 * k + 4) == 16 * Pow2(4 * k) && Pow2(0) == 1
  {
    assert Pow2(4 * k + 4) == 2 * Pow2(4 * k + 3) == 4 * Pow2(4 * k + 2);
    assert Pow2(4 * k + 2) == 2 * Pow2(4 * k + 1) == 4 * Pow2(4 * k);
  }

  const STEM: seq<byte> := Ascii("----abstractgateway-console-")

  function Candidate(n: nat): seq<byte> {
    STEM + Hex(n)
  }

  lemma CandidateIsInjective(m: nat, n: nat)
    requires Candidate(m) == Candidate(n)
    ensures m == n
  {
    assert Candidate(m)[|STEM|..] == Hex(m) && Candidate(n)[|STEM|..] == Hex(n);
    HexIsInjective(m, n);
  }

  // ----- the orbit has 2^60 distinct numbers from any start

  /** The sequence without the wrap. */
  function Unwrapped(x: nat, k: nat): nat {
    if k == 0 then x else 31 * Unwrapped(x, k - 1) + 7
  }

  lemma ModShift(z: int, c: int)
    ensures (z + 0x1_0000_0000_0000_0000 * c) % WRAP == z % WRAP
  {
  }

  lemma NextWraps(x: nat)
    ensures Next(x % WRAP) == (31 * x + 7) % WRAP
  {
    var r, q := x % WRAP, x / WRAP;
    var y := 31 * r;
    assert x == 0x1_0000_0000_0000_0000 * q + r;
    ModShift(y + 7, 31 * q);
    assert y == 0x1_0000_0000_0000_0000 * (y / WRAP) + y % WRAP;
    ModShift(y % WRAP + 7, y / WRAP);
  }

  lemma {:induction false} OrbitWraps(k: nat)
    ensures Orbit(k) == Unwrapped(SEED, k) % WRAP
  {
    if k > 0 {
      OrbitWraps(k - 1);
      NextWraps(Unwrapped(SEED, k - 1));
    }
  }

  /** 1 + 31 + ... + 31^(d-1) */
  function Geometric(d: nat): nat {
    if d == 0 then 0 else Geometric(d - 1) + Pow31(d - 1)
  }

  lemma {:induction false} Pow31Adds(m: nat, n: nat)
    ensures Pow31(m + n) == Pow31(m) * Pow31(n)
  {
    if m > 0 {
      Pow31Adds(m - 1, n);
      Regroup(31, Pow31(m - 1), Pow31(n));
    }
  }

  lemma Regroup(a: nat, b: nat, c: nat)
    ensures (a * b) * c == a * (b * c)
  {
  }

  lemma Distribute(a: nat, b: nat, c: nat)
    ensures a * (b + c) == a * b + a * c
  {
  }

  lemma {:induction false} GeometricAdds(m: nat, n: nat)
    ensures Geometric(m + n) == Geometric(m) + Pow31(m) * Geometric(n)
  {
    if n > 0 {
      GeometricAdds(m, n - 1);
      Pow31Adds(m, n - 1);
      Distribute(Pow31(m), Geometric(n - 1), Pow31(n - 1));
    }
  }

  lemma Steps(g: nat, c: nat)
    ensures (31 * g + 1) * c == 31 * (g * c) + c && g * c >= 0
  {
  }

  /** How far d steps move the unwrapped sequence: an odd number times the geometric sum. */
  lemma {:induction false} Distance(x: nat, d: nat)
    ensures Unwrapped(x, d) == x + Geometric(d) * (30 * x + 7) && Unwrapped(x, d) >= x
    ensures Pow31(d) == 30 * Geometric(d) + 1
  {
    if d > 0 {
      Distance(x, d - 1);
      var g, c := Geometric(d - 1), 30 * x + 7;
      assert Geometric(d) == 31 * g + 1;
      Steps(g, c);
    }
  }

  lemma {:induction false} UnwrappedAdds(x: nat, i: nat, d: nat)
    ensures Unwrapped(x, i + d) == Unwrapped(Unwrapped(x, i), d)
  {
    if d > 0 {
      UnwrappedAdds(x, i, d - 1);
    }
  }

  lemma Rest64(a: nat, q: nat, r: nat)
    requires a == 64 * q + r && r < 64
    ensures a % 64 == r
  {
    hide *;
  }

  lemma Times31(p: nat)
    ensures p % 64 == 1 ==> (31 * p) % 64 == 31
    ensures p % 64 == 31 ==> (31 * p) % 64 == 1
  {
    hide *;
    var k := p / 64;
    if p % 64 == 1 {
      Rest64(31 * p, 31 * k, 31);
    }
    if p % 64 == 31 {
      Rest64(31 * p, 31 * k + 15, 1);
    }
  }

  lemma {:induction false} PowerModulo(m: nat)
    ensures Pow31(m) % 64 == if m % 2 == 0 then 1 else 31
  {
    if m > 0 {
      PowerModulo(m - 1);
      Times31(Pow31(m - 1));
    }
  }

  // ----- counting factors of two

  function Twos(g: nat): nat
    requires g > 0
  {
    if g % 2 == 1 then 0 else 1 + Twos(g / 2)
  }

  lemma Positive(a: nat, b: nat)
    requires a > 0 && b > 0
    ensures a * b > 0
  {
  }

  /** An odd factor adds no factor of two. */
  lemma {:induction false} TwosOfOddMultiple(g: nat, q: nat)
    requires g > 0 && q % 2 == 1
    ensures g * q > 0 && Twos(g * q) == Twos(g)
  {
    Positive(g, q);
    if g % 2 == 1 {
      OddTimesOdd(g, q);
    } else {
      TwosOfOddMultiple(g / 2, q);
      Regroup(2, g / 2, q);
    }
  }

  lemma Half(g: nat, q: nat)
    ensures g * (2 * q) == 2 * (g * q)
  {
  }

  lemma TwosOfEvenDouble(g: nat, p: nat)
    requires g > 0 && p % 64 == 1
    ensures g * (p + 1) > 0 && Twos(g * (p + 1)) == Twos(g) + 1
  {
    var q := (p + 1) / 2;
    assert p + 1 == 2 * q;
    TwosOfOddMultiple(g, q);
    Half(g, q);
    var x := g * q;
    assert g * (p + 1) == 2 * x;
  }

  lemma Times32(g: nat, q: nat)
    ensures g * (32 * q) == 32 * (g * q)
  {
  }

  lemma TwosOfOddDouble(g: nat, p: nat)
    requires g % 2 == 1 && p % 64 == 31
    ensures g * (p + 1) > 0 && Twos(g * (p + 1)) == 5
  {
    hide Twos;
    var q := (p + 1) / 32;
    Times32(g, q);
    OddTimesOdd(g, q);
    TwosOf32(g * q);
  }

  lemma TwosOf32(x: nat)
    requires x % 2 == 1
    ensures Twos(32 * x) == 5
  {
    assert Twos(2 * x) == 1;
    assert Twos(4 * x) == 2;
    assert Twos(8 * x) == 3;
    assert Twos(16 * x) == 4;
  }

  lemma GeometricDoubles(m: nat, g: nat, p: nat)
    requires g == Geometric(m) && p == Pow31(m)
    ensures Geometric(m + m) == g * (p + 1)
  {
    GeometricAdds(m, m);
    Double(g, p);
  }

  lemma Double(g: nat, p: nat)
    ensures g + p * g == g * (p + 1)
  {
  }

  lemma {:induction false} GeometricPositive(d: nat)
    requires d > 0
    ensures Geometric(d) > 0
  {
  }

  /** The geometric sum holds few factors of two: k of them only when 16 d reaches 2^k. */
  lemma {:induction false} FactorsOfTwo(d: nat)
    requires d > 0
    ensures Geometric(d) > 0
    ensures Twos(Geometric(d)) == 0 || Pow2(Twos(Geometric(d))) <= 16 * d
  {
    GeometricPositive(d);
    var m := d / 2;
    if d % 2 == 1 {
      GeometricParity(d);
    } else {
      GeometricDoubles(m, Geometric(m), Pow31(m));
      assert d == m + m;
      PowerModulo(m);
      if m % 2 == 1 {
        GeometricParity(m);
        TwosOfOddDouble(Geometric(m), Pow31(m));
        PowersOfTwo();
      } else {
        FactorsOfTwo(m);
        TwosOfEvenDouble(Geometric(m), Pow31(m));
      }
    }
  }

  lemma PowersOfTwo()
    ensures Pow2(0) == 1 && Pow2(1) == 2 && Pow2(5) == 32
  {
    PowersOfSixteen(0);
  }

  /** A positive multiple of 2^n holds n factors of two. */
  lemma {:induction false} TwosOfMultiple(n: nat, c: nat)
    requires Pow2(n) * c > 0
    ensures Twos(Pow2(n) * c) >= n
  {
    if n > 0 {
      Regroup(2, Pow2(n - 1), c);
      TwosOfMultiple(n - 1, c);
    }
  }

  lemma OddTimesOdd(a: nat, b: nat)
    requires a % 2 == 1 && b % 2 == 1
    ensures (a * b) % 2 == 1
  {
    var x, y := a / 2, b / 2;
    assert a * b == 2 * (2 * x * y + x + y) + 1;
  }

  lemma {:induction false} OddPower(m: nat)
    ensures Pow31(m) % 2 == 1
  {
    if m > 0 {
      OddPower(m - 1);
      OddTimesOdd(31, Pow31(m - 1));
    }
  }

  lemma {:induction false} GeometricParity(d: nat)
    ensures Geometric(d) % 2 == d % 2
  {
    if d > 0 {
      GeometricParity(d - 1);
      OddPower(d - 1);
      OddAdds(Geometric(d - 1), Pow31(d - 1), d);
    }
  }

  lemma OddAdds(a: nat, b: nat, d: nat)
    requires d > 0 && a % 2 == (d - 1) % 2 && b % 2 == 1
    ensures (a + b) % 2 == d % 2
  {
    hide *;
  }

  lemma {:induction false} Pow2Monotone(m: nat, n: nat)
    requires m <= n
    ensures Pow2(m) <= Pow2(n)
  {
    if m < n {
      Pow2Monotone(m, n - 1);
    }
  }

  lemma BigPowers()
    ensures Pow2(60) == PERIOD && Pow2(64) == WRAP
  {
    PowersOfSixteen(0);
    PowersOfSixteen(1);
    PowersOfSixteen(2);
    PowersOfSixteen(3);
    PowersOfSixteen(4);
    PowersOfSixteen(5);
    PowersOfSixteen(6);
    PowersOfSixteen(7);
    PowersOfSixteen(8);
    PowersOfSixteen(9);
    PowersOfSixteen(10);
    PowersOfSixteen(11);
    PowersOfSixteen(12);
    PowersOfSixteen(13);
    PowersOfSixteen(14);
    PowersOfSixteen(15);
  }

  const PERIOD: nat := 0x1000_0000_0000_0000

  /** Numbers that agree after wrapping are whole turns apart. */
  lemma WholeTurns(x: nat, y: nat) returns (c: nat)
    requires x <= y && x % WRAP == y % WRAP
    ensures y - x == Pow2(64) * c
  {
    c := y / WRAP - x / WRAP;
    BigPowers();
    assert y - x == 0x1_0000_0000_0000_0000 * c;
  }

  /** An odd multiple of the sum of fewer than 2^60 terms is no whole number of turns. */
  lemma NoWholeTurns(odd: nat, d: nat, c: nat)
    requires odd % 2 == 1 && 0 < d < PERIOD
    ensures Geometric(d) * odd != Pow2(64) * c
  {
    FactorsOfTwo(d);
    TwosOfOddMultiple(Geometric(d), odd);
    if Geometric(d) * odd == Pow2(64) * c {
      TwosOfMultiple(64, c);
      Pow2Monotone(64, Twos(Geometric(d)));
      BigPowers();
    }
  }

  /** From any start, the first 2^60 wrapped numbers are distinct. */
  lemma NoEarlyRepeat(x: nat, d: nat)
    requires 0 < d < PERIOD
    ensures Unwrapped(x, d) % WRAP != x % WRAP
  {
    hide Unwrapped, Pow2, Pow31, Geometric;
    Distance(x, d);
    OddStep(x);
    var y := Unwrapped(x, d);
    if y % WRAP == x % WRAP {
      var c := WholeTurns(x, y);
      NoWholeTurns(30 * x + 7, d, c);
    }
  }

  lemma OddStep(x: nat)
    ensures (30 * x + 7) % 2 == 1
  {
    hide *;
    OddIs(30 * x + 7, 15 * x + 3);
  }

  lemma OddIs(a: nat, half: nat)
    requires a == 2 * half + 1
    ensures a % 2 == 1
  {
    hide *;
  }

  lemma OrbitIsInjective(i: nat, j: nat)
    requires i < j < PERIOD
    ensures Orbit(i) != Orbit(j)
  {
    OrbitWraps(i);
    OrbitWraps(j);
    UnwrappedAdds(SEED, i, j - i);
    NoEarlyRepeat(Unwrapped(SEED, i), j - i);
  }
}
