/** Decimal text of natural numbers. */
module Decimals {
  import opened Sorting
  import opened TextLines

  function Digit(n: nat): (c: char)
    requires n < 10
    ensures '0' <= c <= '9'
  {
    ('0' as int + n) as char
  }

  /** The last `width` digits of a number. */
  function Digits(n: nat, width: nat): (r: string)
    ensures |r| == width
  {
    if width == 0 then [] else Digits(n / 10, width - 1) + [Digit(n % 10)]
  }

  function Power10(width: nat): (p: nat)
    ensures p >= 1
  {
    if width == 0 then 1 else 10 * Power10(width - 1)
  }

  /** How many digits a number prints with. */
  function Width(n: nat): (w: nat)
    ensures w >= 1
  {
    if n < 10 then 1 else 1 + Width(n / 10)
  }

  lemma {:induction false} WidthBounds(n: nat)
    ensures n < Power10(Width(n))
    ensures n >= 10 ==> n >= Power10(Width(n) - 1)
  {
    if n >= 10 {
      WidthBounds(n / 10);
    }
  }

  /** Rust's `{:0w}`: at least `width` digits. */
  function Padded(n: nat, width: nat): string {
    Digits(n, if Width(n) < width then width else Width(n))
  }

  lemma LexOfLast(a: string, b: string, c: char, d: char)
    requires |a| == |b|
    ensures TextLeq(a + [c], b + [d]) <==> if a == b then c <= d else TextLeq(a, b)
  {
    LexOfConcat(a, b, [c], [d]);
    assert LexLeq(CharLeq, [c][1..], [d][1..]);
    assert TextLeq([c], [d]) <==> c <= d;
  }

  /** Numbers printed at one width compare as their texts do. */
  lemma {:induction false} DigitsOrder(a: nat, b: nat, width: nat)
    requires a < Power10(width) && b < Power10(width)
    ensures TextLeq(Digits(a, width), Digits(b, width)) <==> a <= b
    ensures Digits(a, width) == Digits(b, width) <==> a == b
  {
    if width > 0 {
      DigitsOrder(a / 10, b / 10, width - 1);
      LexOfLast(Digits(a / 10, width - 1), Digits(b / 10, width - 1), Digit(a % 10), Digit(b % 10));
      if Digits(a, width) == Digits(b, width) {
        assert Digits(a, width)[..width - 1] == Digits(b, width)[..width - 1];
        assert Digits(a, width)[width - 1] == Digits(b, width)[width - 1];
      }
    }
  }

  lemma {:induction false} WidthMonotone(n: nat, width: nat)
    requires width >= 1 && n < Power10(width)
    ensures Width(n) <= width
  {
    if n >= 10 {
      WidthMonotone(n / 10, width - 1);
    }
  }

  predicate AllDigits(s: string) {
    forall i :: 0 <= i < |s| ==> '0' <= s[i] <= '9'
  }

  /** A number without its last digits. */
  function Leading(n: nat, dropped: nat): nat
    decreases dropped
  {
    if dropped == 0 then n else Leading(n / 10, dropped - 1)
  }

  lemma {:induction false} LeadingFits(n: nat, width: nat, dropped: nat)
    requires n < Power10(width + dropped)
    ensures Leading(n, dropped) < Power10(width)
    decreases dropped
  {
    if dropped > 0 {
      LeadingFits(n / 10, width, dropped - 1);
    }
  }

  lemma LastDigit(n: nat, width: nat)
    requires width > 0
    ensures Digits(n, width) == Digits(n / 10, width - 1) + [Digit(n % 10)]
  {
  }

  lemma {:induction false} DigitsSplit(n: nat, high: nat, low: nat) returns (rest: string)
    ensures |rest| == low && AllDigits(rest)
    ensures Digits(n, high + low) == Digits(Leading(n, low), high) + rest
    decreases low
  {
    hide Digits;
    if low == 0 {
      rest := [];
    } else {
      var before := DigitsSplit(n / 10, high, low - 1);
      rest := before + [Digit(n % 10)];
      LastDigit(n, high + low);
      assert Digits(Leading(n, low), high) + before + [Digit(n % 10)] == Digits(Leading(n, low), high) + rest;
    }
  }
}
