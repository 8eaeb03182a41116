/** Dotted names and decimal numerals. */
module Strings {

  /** What stands behind the last dot; all of it without one. */
  function LastSegment(s: string): (last: string)
    ensures |last| <= |s|
  {
    if s == "" || s[|s| - 1] == '.' then "" else LastSegment(s[..|s| - 1]) + [s[|s| - 1]]
  }

  lemma {:induction false} LastSegmentMeaning(s: string)
    ensures var last := LastSegment(s);
      && s[|s| - |last|..] == last && '.' !in last
      && (|last| < |s| ==> s[|s| - |last| - 1] == '.')
  {
    if s != "" && s[|s| - 1] != '.' {
      LastSegmentMeaning(s[..|s| - 1]);
    }
  }

  lemma {:induction false} NoDot(s: string)
    requires '.' !in s
    ensures LastSegment(s) == s
  {
    if s != "" {
      assert s[|s| - 1] in s && forall c | c in s[..|s| - 1] :: c in s;
      NoDot(s[..|s| - 1]);
    }
  }

  lemma {:induction false} BehindDot(a: string, b: string)
    requires '.' !in b
    ensures LastSegment(a + "." + b) == b
    decreases |b|
  {
    if b == "" {
      assert a + "." + b == a + ".";
    } else {
      var k := |b| - 1;
      assert b[k] in b && forall c | c in b[..k] :: c in b;
      assert (a + "." + b)[..|a + "." + b| - 1] == a + "." + b[..k];
      BehindDot(a, b[..k]);
    }
  }

  function Digits(n: nat): string {
    if n < 10 then ["0123456789"[n]] else Digits(n / 10) + ["0123456789"[n % 10]]
  }

  function Decimal(n: int): string {
    if n < 0 then "-" + Digits(-n) else Digits(n)
  }

  lemma DigitsDistinct(i: nat, j: nat)
    requires i < 10 && j < 10 && "0123456789"[i] == "0123456789"[j]
    ensures i == j
  {
  }

  lemma {:induction false} DigitsAreDigits(n: nat)
    ensures Digits(n) != "" && forall c | c in Digits(n) :: '0' <= c <= '9'
  {
    if n >= 10 {
      DigitsAreDigits(n / 10);
    }
  }

  lemma LastDigit(n: nat)
    ensures var d := Digits(n);
      && d != "" && d[|d| - 1] == "0123456789"[n % 10]
      && d[..|d| - 1] == (if n < 10 then "" else Digits(n / 10))
  {
  }

  /** Different numbers have different numerals. */
  lemma {:induction false} DigitsInjective(n: nat, m: nat)
    requires Digits(n) == Digits(m)
    ensures n == m
    decreases n
  {
    LastDigit(n);
    LastDigit(m);
    DigitsDistinct(n % 10, m % 10);
    if n >= 10 && m >= 10 {
      DigitsInjective(n / 10, m / 10);
    } else if n >= 10 {
      DigitsAreDigits(n / 10);
    } else if m >= 10 {
      DigitsAreDigits(m / 10);
    }
  }

  lemma DecimalInjective(n: int, m: int)
    ensures Decimal(n) == Decimal(m) <==> n == m
  {
    if Decimal(n) == Decimal(m) {
      if n < 0 && m < 0 {
        SameNegative(-n, -m);
      } else if n >= 0 && m >= 0 {
        DigitsInjective(n, m);
      } else {
        SignDiffers(if n < 0 then n else m, if n < 0 then m else n);
      }
    }
  }

  lemma SameNegative(n: nat, m: nat)
    requires "-" + Digits(n) == "-" + Digits(m)
    ensures n == m
  {
    assert Digits(n) == ("-" + Digits(n))[1..] && Digits(m) == ("-" + Digits(m))[1..];
    DigitsInjective(n, m);
  }

  lemma SignDiffers(n: int, m: nat)
    requires n < 0
    ensures Decimal(n) != Decimal(m)
  {
    DigitsAreDigits(m);
    assert Decimal(m)[0] in Decimal(m) && Decimal(n)[0] == '-';
  }

  lemma SamePrefixed(a: string, b: string, name: string)
    ensures a + "." + name == b + "." + name <==> a == b
  {
    if a + "." + name == b + "." + name {
      assert (a + "." + name)[..|a|] == a && (b + "." + name)[..|b|] == b && |a| == |b|;
    }
  }

  lemma SameBehind(a: string, x: string, y: string)
    ensures a + "." + x == a + "." + y <==> x == y
  {
    if a + "." + x == a + "." + y {
      assert x == (a + "." + x)[|a| + 1..] && y == (a + "." + y)[|a| + 1..];
    }
  }
}
