/** leftPad: the decimal printer behind the mock device UUIDs. */
module Decimal {
  import opened Telemetry

  predicate IsDigits(s: string) {
    forall i :: 0 <= i < |s| ==> '0' <= s[i] <= '9'
  }

  function Digit(d: nat): char
    requires d < 10
  {
    '0' + d as char
  }

  function Read(s: string): nat
    requires IsDigits(s)
  {
    if s == [] then 0 else 10 * Read(s[..|s| - 1]) + (s[|s| - 1] - '0') as nat
  }

  /** Zero has no digits. */
  function DigitCount(n: nat): nat {
    if n == 0 then 0 else 1 + DigitCount(n / 10)
  }

  function Power(e: nat): nat {
    if e == 0 then 1 else 10 * Power(e - 1)
  }

  lemma {:induction false} ReadConcat(a: string, b: string)
    requires IsDigits(a) && IsDigits(b)
    ensures IsDigits(a + b)
    ensures Read(a + b) == Read(a) * Power(|b|) + Read(b)
  {
    if b == [] {
      assert a + b == a;
    } else {
      var c, d := b[..|b| - 1], (b[|b| - 1] - '0') as nat;
      assert (a + b)[..|a + b| - 1] == a + c;
      ReadConcat(a, c);
      Shift(Read(a), Power(|c|), Read(c), d);
    }
  }

  lemma Shift(x: nat, p: nat, r: nat, d: nat)
    ensures 10 * (x * p + r) + d == x * (10 * p) + (10 * r + d)
  {
    assert 10 * (x * p) == x * (10 * p);
  }

  /** Value and length determine a digit string. */
  lemma {:induction false} DecimalUnique(s: string, t: string)
    requires IsDigits(s) && IsDigits(t) && |s| == |t| && Read(s) == Read(t)
    ensures s == t
  {
    if s != [] {
      var a, b := s[..|s| - 1], t[..|t| - 1];
      var x, y := (s[|s| - 1] - '0') as nat, (t[|t| - 1] - '0') as nat;
      assert 10 * Read(a) + x == 10 * Read(b) + y && x < 10 && y < 10;
      DecimalUnique(a, b);
      assert s == a + [s[|s| - 1]] && t == b + [t[|t| - 1]];
    }
  }

  lemma PrependDigit(d: nat, s: string)
    requires d < 10 && IsDigits(s)
    ensures IsDigits([Digit(d)] + s)
    ensures Read([Digit(d)] + s) == d * Power(|s|) + Read(s)
  {
    OneDigit(d);
    ReadConcat([Digit(d)], s);
  }

  lemma OneDigit(d: nat)
    requires d < 10
    ensures IsDigits([Digit(d)]) && Read([Digit(d)]) == d
  {
    assert [Digit(d)][..0] == [];
  }

  lemma {:induction false} DigitsFit(n: nat, e: nat)
    requires n < Power(e)
    ensures DigitCount(n) <= e
  {
    if n > 0 {
      DigitsFit(n / 10, e - 1);
    }
  }

  lemma SixteenDigits(n: nat)
    ensures n < 10_000_000_000_000_000 ==> DigitCount(n) <= 16
  {
    assert Power(4) == 10_000;
    assert Power(8) == 10_000 * Power(4);
    assert Power(12) == 10_000 * Power(8);
    assert Power(16) == 10_000 * Power(12);
    if n < 10_000_000_000_000_000 {
      DigitsFit(n, 16);
    }
  }

  /** Reading the result back gives n; its length is the larger of width and n's digit count.
      By DecimalUnique the two fix the result. */
  method LeftPad(n: nat, width: int) returns (s: string)
    ensures IsDigits(s) && Read(s) == n
    ensures |s| == Max(width, DigitCount(n))
  {
    s := "";
    var rest: nat := n;
    while rest > 0
      invariant IsDigits(s) && rest * Power(|s|) + Read(s) == n
      invariant |s| + DigitCount(rest) == DigitCount(n)
    {
      PrependDigit(rest % 10, s);
      SplitLast(rest, Power(|s|));
      s := [Digit(rest % 10)] + s;
      rest := rest / 10;
    }
    while |s| < width
      invariant IsDigits(s) && Read(s) == n
      invariant DigitCount(n) <= |s| <= Max(width, DigitCount(n))
      decreases width - |s|
    {
      PrependDigit(0, s);
      s := [Digit(0)] + s;
    }
  }

  lemma SplitLast(n: nat, p: nat)
    ensures n * p == (n / 10) * (10 * p) + (n % 10) * p
  {
    var q, r := n / 10, n % 10;
    assert n == 10 * q + r;
    assert (10 * q + r) * p == 10 * q * p + r * p;
    assert q * (10 * p) == 10 * q * p;
  }
}
