/** Decimal digit strings and exact decimal numbers.
    The amounts of a receipt are read as exact decimals instead of binary floats:
    a `Decimal(units, scale)` stands for units / 10^scale. */
module Decimals {

  predicate IsDigit(c: char) {
    '0' <= c <= '9'
  }

  predicate AllDigits(s: string) {
    forall i | 0 <= i < |s| :: IsDigit(s[i])
  }

  function Pow10(n: nat): (r: nat)
    ensures r >= 1
  {
    if n == 0 then 1 else 10 * Pow10(n - 1)
  }

  lemma {:induction false} Pow10Add(a: nat, b: nat)
    ensures Pow10(a + b) == Pow10(a) * Pow10(b)
  {
    if b > 0 {
      Pow10Add(a, b - 1);
      calc {
        Pow10(a + b);
        10 * Pow10(a + b - 1);
        10 * (Pow10(a) * Pow10(b - 1));
        Pow10(a) * (10 * Pow10(b - 1));
        Pow10(a) * Pow10(b);
      }
    }
  }

  /** The value of a string of decimal digits, most significant first
      (the empty string is 0); it always fits in as many digits as it has. */
  function DigitsValue(s: string): (r: nat)
    requires AllDigits(s)
    ensures r < Pow10(|s|)
  {
    if |s| == 0 then 0
    else
      var d := s[|s| - 1] as int - '0' as int;
      var p := DigitsValue(s[..|s| - 1]);
      assert p <= Pow10(|s| - 1) - 1;
      assert p * 10 + d <= (Pow10(|s| - 1) - 1) * 10 + 9;
      p * 10 + d
  }

  /** Reading the digits of `a` followed by those of `b` shifts `a` left by |b| places. */
  lemma {:induction false} DigitsValueAppend(a: string, b: string)
    requires AllDigits(a) && AllDigits(b)
    ensures AllDigits(a + b)
    ensures DigitsValue(a + b) == DigitsValue(a) * Pow10(|b|) + DigitsValue(b)
  {
    assert AllDigits(a + b) by {
      forall i | 0 <= i < |a + b| ensures IsDigit((a + b)[i]) {
        if i < |a| { assert (a + b)[i] == a[i]; } else { assert (a + b)[i] == b[i - |a|]; }
      }
    }
    if |b| == 0 {
      assert a + b == a;
    } else {
      var b' := b[..|b| - 1];
      var d := b[|b| - 1] as int - '0' as int;
      assert (a + b)[..|a + b| - 1] == a + b';
      assert (a + b)[|a + b| - 1] == b[|b| - 1];
      DigitsValueAppend(a, b');
      assert DigitsValue(a + b) == DigitsValue(a + b') * 10 + d;
      assert DigitsValue(b) == DigitsValue(b') * 10 + d;
      assert Pow10(|b|) == 10 * Pow10(|b'|);
      ShiftStep(DigitsValue(a), Pow10(|b'|), DigitsValue(b'), d);
    }
  }

  lemma ShiftStep(x: int, p: int, y: int, d: int)
    ensures (x * p + y) * 10 + d == x * (10 * p) + (y * 10 + d)
  {
  }

  /** units / 10^scale */
  datatype Decimal = Decimal(units: nat, scale: nat)

  /** `a` and `b` denote the same rational number. */
  predicate SameValue(a: Decimal, b: Decimal) {
    a.units * Pow10(b.scale) == b.units * Pow10(a.scale)
  }

  /** No trailing zero in the fraction: the one form of each value. */
  predicate Canonical(d: Decimal) {
    d.scale == 0 || d.units % 10 != 0
  }

  /** Drops trailing fractional zeros ("27.00" is 27, "100.50" is 100.5). */
  function Normalize(d: Decimal): (r: Decimal)
    ensures Canonical(r) && SameValue(r, d) && r.scale <= d.scale
    decreases d.scale
  {
    if d.scale > 0 && d.units % 10 == 0 then
      var r := Normalize(Decimal(d.units / 10, d.scale - 1));
      ScaleStep(r.units, Pow10(d.scale - 1), d.units / 10, Pow10(r.scale));
      r
    else d
  }

  lemma ScaleStep(u: int, p: int, v: int, q: int)
    requires u * p == v * q
    ensures u * (10 * p) == (10 * v) * q
  {
  }

  lemma CancelFactor(x: nat, y: nat, p: nat)
    requires p > 0 && x * p == y * p
    ensures x == y
  {
  }

  /** Two canonical decimals are equal exactly when they denote the same number,
      so comparing canonical decimals with == compares amounts by value. */
  lemma CanonicalUnique(a: Decimal, b: Decimal)
    requires Canonical(a) && Canonical(b)
    ensures a == b <==> SameValue(a, b)
  {
    if SameValue(a, b) {
      if a.scale < b.scale {
        ShiftedNotCanonical(a, b);
      } else if b.scale < a.scale {
        ShiftedNotCanonical(b, a);
      } else {
        CancelFactor(a.units, b.units, Pow10(a.scale));
      }
    }
  }

  /** If `a` has the smaller scale and `b` has the same value, the units of `b`
      end in a zero. */
  lemma ShiftedNotCanonical(a: Decimal, b: Decimal)
    requires a.scale < b.scale && SameValue(a, b)
    ensures !Canonical(b)
  {
    var k := b.scale - a.scale;
    Pow10Add(a.scale, k);
    assert (a.units * Pow10(k)) * Pow10(a.scale) == b.units * Pow10(a.scale);
    CancelFactor(a.units * Pow10(k), b.units, Pow10(a.scale));
    assert b.units == (a.units * Pow10(k - 1)) * 10;
  }
}
