/**
 The counts of an array's right spine. An array only ever grows at its right end, so every node off the spine holds
 three entries, and the nodes on it count like the digits of the size, in base 4 with digits up to 7. A digit is
 carried when it is found at 7, from the top down, once in each append: so a carry moves up one level an append.
 */
module Digits {

  function Pow4(n: nat): (p: nat)
    ensures p >= 1
  {
    if n == 0 then 1 else 4 * Pow4(n - 1)
  }

  lemma {:induction false} Pow4Monotone(m: nat, n: nat)
    requires m <= n
    ensures Pow4(m) <= Pow4(n)
    decreases n
  {
    if m < n { Pow4Monotone(m, n - 1); }
  }

  /** Multiples of p in x beyond the first. */
  function Beyond(x: int, p: nat): nat
    requires p >= 1
  {
    if x < 2 * p then 0 else
      AtLeastTwo(x, p);
      x / p - 1
  }

  /** Entries that have been carried out of the lowest j levels by the time there are n. */
  function Carried(j: nat, n: nat): nat {
    Beyond(n + 1 - j, Pow4(j))
  }

  /** Entries in the spine node of level j, leaves being level 1. */
  function Digit(j: nat, n: nat): int
    requires j >= 1
  {
    Carried(j - 1, n) - 4 * Carried(j, n)
  }

  lemma AtLeastTwo(x: int, p: nat)
    requires p >= 1 && x >= 2 * p
    ensures x / p >= 2
  {
    var q, r := x / p, x % p;
    assert x == q * p + r;
    if q <= 1 { Times(q, 1, p); }
  }

  lemma Times(a: int, b: int, p: nat)
    requires a <= b
    ensures a * p <= b * p
  {
  }

  lemma DivIs(x: int, p: nat, q: int, r: nat)
    requires p >= 1 && x == q * p + r && r < p
    ensures x / p == q && x % p == r
  {
    var q', r' := x / p, x % p;
    assert x == q' * p + r';
    if q' < q { Times(q' + 1, q, p); } else if q < q' { Times(q + 1, q', p); }
  }

  /** One more entry is carried out of level j exactly when its node was found at 7. */
  lemma DigitStep(j: nat, n: nat)
    requires j >= 1
    ensures 0 <= Digit(j, n) <= 7
    ensures Carried(j, n) >= 1 ==> Digit(j, n) >= 3
    ensures Carried(j, n + 1) == Carried(j, n) + (if Digit(j, n) == 7 then 1 else 0)
    ensures Digit(j, n) == 7 ==> (n + 2 - j) % Pow4(j) == 0
  {
    hide Beyond;
    assert Pow4(j) == 4 * Pow4(j - 1);
    BeyondStep(n + 2 - j, Pow4(j - 1));
  }

  lemma BeyondStep(x: int, p: nat)
    requires p >= 1
    ensures var d := Beyond(x, p) - 4 * Beyond(x - 1, 4 * p);
            && 0 <= d <= 7 && (Beyond(x - 1, 4 * p) >= 1 ==> d >= 3)
            && Beyond(x, 4 * p) == Beyond(x - 1, 4 * p) + (if d == 7 then 1 else 0)
            && (d == 7 ==> x % (4 * p) == 0)
  {
    if x < 2 * p {
    } else if x < 8 * p {
      Low(x, p);
    } else if x == 8 * p {
      DivIs(x, p, 8, 0);
      DivIs(x, 4 * p, 2, 0);
    } else {
      AtLeastTwo(x - 1, 4 * p);
      High(x, p);
    }
  }

  lemma Low(x: int, p: nat)
    requires p >= 1 && 2 * p <= x < 8 * p
    ensures 2 <= x / p <= 7
  {
    AtLeastTwo(x, p);
    var q, r := x / p, x % p;
    assert x == q * p + r;
    if q >= 8 { Times(8, q, p); }
  }

  lemma High(x: int, p: nat)
    requires p >= 1 && x > 8 * p
    ensures var d := x / p - 4 * ((x - 1) / (4 * p)) + 3;
            && 3 <= d <= 7
            && x / (4 * p) == (x - 1) / (4 * p) + (if d == 7 then 1 else 0)
            && (d == 7 ==> x % (4 * p) == 0)
  {
    var q, r := (x - 1) / (4 * p), (x - 1) % (4 * p);
    assert x - 1 == q * (4 * p) + r;
    var a, b := (r + 1) / p, (r + 1) % p;
    assert r + 1 == a * p + b;
    assert x == (4 * q + a) * p + b by {
      assert (4 * q + a) * p == q * (4 * p) + a * p;
    }
    DivIs(x, p, 4 * q + a, b);
    if a >= 5 { Times(5, a, p); }
    if a < 0 { Times(a, -1, p); }
    if r + 1 == 4 * p {
      DivIs(r + 1, p, 4, 0);
      assert x == (q + 1) * (4 * p);
      DivIs(x, 4 * p, q + 1, 0);
    } else {
      DivIs(x, 4 * p, q, r + 1);
      if a >= 4 { Times(4, a, p); }
    }
  }

  lemma CarriedNone(n: nat)
    ensures Carried(0, n) == n
  {
  }

  /** What each level counts after one more entry, given which levels were found at 7. */
  lemma DigitNext(j: nat, n: nat)
    requires j >= 1
    ensures Digit(j, n + 1) == Digit(j, n) - (if Digit(j, n) == 7 then 4 else 0)
                             + (if j == 1 || Digit(j - 1, n) == 7 then 1 else 0)
  {
    DigitStep(j, n);
    if j == 1 { CarriedNone(n); CarriedNone(n + 1); } else { DigitStep(j - 1, n); }
  }

  /** Levels 1 to h that are found at 7. */
  function Sevens(h: nat, n: nat): nat {
    if h == 0 then 0 else Sevens(h - 1, n) + (if Digit(h, n) == 7 then 1 else 0)
  }

  lemma {:induction false} SixteenDivides(j: nat)
    requires j >= 2
    ensures Pow4(j) % 16 == 0
    decreases j
  {
    if j == 2 {
      assert Pow4(1) == 4;
    } else {
      SixteenDivides(j - 1);
    }
  }

  lemma Divides(x: int, p: nat)
    requires p >= 1 && p % 16 == 0 && x % p == 0
    ensures x % 16 == 0
  {
    var q, m := x / p, p / 16;
    assert x == q * p && p == m * 16;
    assert x == (q * m) * 16;
  }

  lemma SevenAt(j: nat, n: nat)
    requires j >= 2 && Digit(j, n) == 7
    ensures (n + 2 - j) % 16 == 0
  {
    DigitStep(j, n);
    SixteenDivides(j);
    Divides(n + 2 - j, Pow4(j));
  }

  /** Of the levels from 2 to 13 at most one is at 7, so with the leaf at most two are. */
  lemma {:induction false} FewSevens(h: nat, n: nat)
    requires h <= 13
    ensures Sevens(h, n) <= 2
    ensures forall j :: 2 <= j <= h && Digit(j, n) == 7 ==> Sevens(j - 1, n) <= 1
    decreases h
  {
    hide Digit;
    if h > 0 {
      FewSevens(h - 1, n);
      if h >= 2 && Digit(h, n) == 7 { NoneBelow(h, h - 1, n); }
    }
  }

  lemma SixteenApart(a: int, b: int)
    requires a % 16 == 0 && b % 16 == 0
    ensures (a - b) % 16 == 0
  {
  }

  lemma {:induction false} NoneBelow(h: nat, i: nat, n: nat)
    requires 2 <= h <= 13 && i < h && Digit(h, n) == 7
    ensures Sevens(i, n) <= 1
    decreases i
  {
    if i > 1 {
      NoneBelow(h, i - 1, n);
      if Digit(i, n) == 7 {
        SevenAt(h, n);
        SevenAt(i, n);
        SixteenApart(n + 2 - i, n + 2 - h);
      }
    } else if i == 1 {
      assert Sevens(0, n) == 0;
    }
  }

  /** A spine of h levels takes at least 2 * 4^(h-1) + h - 2 entries. */
  lemma LevelsFor(h: nat, n: nat)
    requires h >= 1 && (h == 1 || Carried(h - 1, n) >= 1) && n < 0x400_0000
    ensures h <= 13
  {
    Pow4Thirteen();
    if h >= 14 { Pow4Monotone(13, h - 1); }
  }

  lemma Pow4Thirteen()
    ensures Pow4(13) == 0x400_0000
  {
    assert Pow4(2) == 16;
    assert Pow4(4) == 256;
    assert Pow4(6) == 4096;
    assert Pow4(8) == 65536;
    assert Pow4(10) == 1048576;
    assert Pow4(12) == 16777216;
  }
}
