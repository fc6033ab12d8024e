/** Decimal text to `u32`, as Rust's `str::parse::<u32>()` does it: an
    optional leading `+`, then one or more ASCII digits, rejected when the
    value does not fit in 32 bits. */
module Decimal {
  import opened Wrappers

  const U32_LIMIT: nat := 0x1_0000_0000

  type U32 = n: nat | n < U32_LIMIT

  predicate IsDigit(c: char) {
    '0' <= c <= '9'
  }

  predicate AllDigits(s: string) {
    forall i :: 0 <= i < |s| ==> IsDigit(s[i])
  }

  predicate IsDigits(s: string) {
    |s| > 0 && AllDigits(s)
  }

  function DigitValue(c: char): (v: nat)
    requires IsDigit(c)
    ensures v < 10
  {
    c as int - '0' as int
  }

  function DigitChar(v: nat): (c: char)
    requires v < 10
    ensures IsDigit(c) && DigitValue(c) == v
  {
    ('0' as int + v) as char
  }

  /** The value of the digit string `s` read after the digits already worth
      `acc`: `acc * 10^|s| + value(s)`, accumulated left to right. */
  function Horner(s: string, acc: nat): nat
    requires AllDigits(s)
    decreases |s|
  {
    if |s| == 0 then acc else Horner(s[1..], acc * 10 + DigitValue(s[0]))
  }

  /** The value of a digit string. */
  function Value(s: string): nat
    requires AllDigits(s)
  {
    Horner(s, 0)
  }

  /** The text after an optional leading `+`. */
  function Unsigned(s: string): string {
    if |s| > 0 && s[0] == '+' then s[1..] else s
  }

  /** Texts `str::parse::<u32>` accepts. */
  predicate IsU32Text(s: string) {
    var d := Unsigned(s);
    IsDigits(d) && Value(d) < U32_LIMIT
  }

  /** The digit-by-digit loop of the parser: each step multiplies by ten and
      adds the digit, failing on a non-digit or on 32-bit overflow. */
  function Accumulate(s: string, acc: U32): Option<U32>
    decreases |s|
  {
    if |s| == 0 then Some(acc)
    else if !IsDigit(s[0]) then None
    else
      var next := acc * 10 + DigitValue(s[0]);
      if next >= U32_LIMIT then None else Accumulate(s[1..], next)
  }

  /** `str::parse::<u32>`: `None` for the empty string, a lone sign, a
      non-digit or a value of 2^32 or more. */
  function ParseU32(s: string): (r: Option<U32>)
    ensures r.Some? <==> IsU32Text(s)
    ensures r.Some? ==> r.value == Value(Unsigned(s))
  {
    var d := Unsigned(s);
    AccumulateValue(d, 0);
    if |d| == 0 then None else Accumulate(d, 0)
  }

  /** Decimal rendering of `n`, without leading zeros. */
  function Digits(n: nat): (s: string)
    ensures IsDigits(s)
    decreases n
  {
    if n < 10 then [DigitChar(n)] else Digits(n / 10) + [DigitChar(n % 10)]
  }

  lemma {:induction false} HornerGrows(s: string, acc: nat)
    requires AllDigits(s)
    ensures Horner(s, acc) >= acc
    decreases |s|
  {
    if |s| > 0 {
      HornerGrows(s[1..], acc * 10 + DigitValue(s[0]));
    }
  }

  lemma {:induction false} HornerAppend(s: string, c: char, acc: nat)
    requires AllDigits(s) && IsDigit(c)
    ensures AllDigits(s + [c])
    ensures Horner(s + [c], acc) == Horner(s, acc) * 10 + DigitValue(c)
    decreases |s|
  {
    if |s| == 0 {
      assert (s + [c])[1..] == [];
    } else {
      assert (s + [c])[1..] == s[1..] + [c];
      HornerAppend(s[1..], c, acc * 10 + DigitValue(s[0]));
    }
  }

  /** The overflow-checking loop accepts exactly the digit strings whose
      value fits, and then computes that value. */
  lemma {:induction false} AccumulateValue(s: string, acc: U32)
    ensures Accumulate(s, acc).Some? <==> AllDigits(s) && Horner(s, acc) < U32_LIMIT
    ensures Accumulate(s, acc).Some? ==> AllDigits(s) && Accumulate(s, acc).value == Horner(s, acc)
    decreases |s|
  {
    if |s| > 0 {
      if !IsDigit(s[0]) {
        assert !AllDigits(s);
      } else {
        var next := acc * 10 + DigitValue(s[0]);
        assert AllDigits(s) <==> AllDigits(s[1..]) by {
          if AllDigits(s[1..]) {
            forall i | 0 <= i < |s| ensures IsDigit(s[i]) {
              if i > 0 { assert s[i] == s[1..][i - 1]; }
            }
          }
        }
        if next >= U32_LIMIT {
          if AllDigits(s) {
            HornerGrows(s[1..], next);
          }
        } else {
          AccumulateValue(s[1..], next);
        }
      }
    }
  }

  /** Round trip: the rendering of `n` reads back as `n`. */
  lemma {:induction false} ValueOfDigits(n: nat)
    ensures Value(Digits(n)) == n
    decreases n
  {
    if n < 10 {
      var s := [DigitChar(n)];
      assert s[1..] == [];
      assert Horner(s, 0) == Horner(s[1..], DigitValue(s[0]));
    } else {
      ValueOfDigits(n / 10);
      HornerAppend(Digits(n / 10), DigitChar(n % 10), 0);
      assert Value(Digits(n)) == (n / 10) * 10 + n % 10;
    }
  }

  /** Every `u32` rendered in decimal parses back to itself. */
  lemma ParseDigits(n: U32)
    ensures ParseU32(Digits(n)) == Some(n)
  {
    ValueOfDigits(n);
    var s := Digits(n);
    assert s[0] != '+' by { assert IsDigit(s[0]); }
  }
}
