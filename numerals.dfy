/**
 * The two integer/text conversions of Rust's standard library that the styling code
 * relies on: `Display` of an unsigned integer (what `format!("{}", n)` and
 * `n.to_string()` print) and `from_str_radix` for an unsigned integer type (what
 * `str::parse::<u8>()` and `u32::from_str_radix` do).
 */
module Numerals {
  import opened Wrappers

  /** Rust's `u8` and `u32`: only the values that fit. */
  type U8 = x: int | 0 <= x < 0x100
  type U32 = x: int | 0 <= x < 0x1_0000_0000

  predicate IsDigit(c: char) {
    '0' <= c <= '9'
  }

  function DigitChar(d: nat): (c: char)
    requires d < 10
    ensures IsDigit(c) && c as int - '0' as int == d
  {
    ('0' as int + d) as char
  }

  /** The decimal text of `n` as Rust prints an unsigned integer: no sign, no leading zero. */
  function Decimal(n: nat): (s: string)
    ensures s != [] && forall i | 0 <= i < |s| :: IsDigit(s[i])
    ensures s[0] == '0' ==> n == 0
  {
    if n < 10 then [DigitChar(n)] else Decimal(n / 10) + [DigitChar(n % 10)]
  }

  /** Rust's `char::to_digit(radix)`: the value of `c` as a digit of base `radix`, if it is one. */
  function DigitValue(c: char, radix: nat): (d: Option<nat>)
    requires 2 <= radix <= 36
    ensures d.Some? ==> d.value < radix
    ensures d.Some? && radix <= 10 ==> IsDigit(c)
    ensures IsDigit(c) && radix >= 10 ==> d == Some(c as int - '0' as int)
  {
    var v := if '0' <= c <= '9' then c as int - '0' as int
             else if 'a' <= c <= 'z' then c as int - 'a' as int + 10
             else if 'A' <= c <= 'Z' then c as int - 'A' as int + 10
             else 36;
    if v < radix then Some(v) else None
  }

  predicate AllDigits(s: string, radix: nat)
    requires 2 <= radix <= 36
  {
    forall i | 0 <= i < |s| :: DigitValue(s[i], radix).Some?
  }

  /** The value of a digit string, accumulated left to right as `acc * radix + digit`. */
  function ValueOf(s: string, radix: nat): nat
    requires 2 <= radix <= 36 && AllDigits(s, radix)
  {
    if s == [] then 0 else ValueOf(s[..|s| - 1], radix) * radix + DigitValue(s[|s| - 1], radix).value
  }

  function Pow(base: nat, e: nat): nat {
    if e == 0 then 1 else base * Pow(base, e - 1)
  }

  /**
   * Rust's `from_str_radix` for an unsigned type whose values lie below `bound`:
   * an optional leading `+`, then one or more digits of the radix in either case.
   * The empty string, a lone sign, a `-`, any other character and a value that does
   * not fit are all errors.
   */
  function FromStrRadix(src: string, radix: nat, bound: nat): (r: Option<nat>)
    requires 2 <= radix <= 36
    ensures r.Some? ==> r.value < bound
  {
    if src == [] then None
    else if (src[0] == '+' || src[0] == '-') && |src| == 1 then None
    else
      var digits := if src[0] == '+' then src[1..] else src;
      if AllDigits(digits, radix) && ValueOf(digits, radix) < bound then Some(ValueOf(digits, radix)) else None
  }

  /** Printing a number and reading it back in base 10 gives the number. */
  lemma {:induction false} DecimalValue(n: nat)
    ensures AllDigits(Decimal(n), 10) && ValueOf(Decimal(n), 10) == n
  {
    var s := Decimal(n);
    if n >= 10 {
      DecimalValue(n / 10);
      assert s[..|s| - 1] == Decimal(n / 10);
    }
  }

  /** `n.to_string().parse()` into a type wide enough for `n` gives back `n`. */
  lemma DecimalRoundTrip(n: nat, bound: nat)
    requires n < bound
    ensures FromStrRadix(Decimal(n), 10, bound) == Some(n)
  {
    DecimalValue(n);
  }

  /** A plain digit string (no sign) whose value fits parses as that value. */
  lemma DigitsParse(d: string, radix: nat, bound: nat)
    requires 2 <= radix <= 36 && d != [] && AllDigits(d, radix) && ValueOf(d, radix) < bound
    ensures FromStrRadix(d, radix, bound) == Some(ValueOf(d, radix))
  {
    assert DigitValue(d[0], radix).Some?;
  }

  /** Appending digits shifts the value of the prefix by a power of the radix. */
  lemma {:induction false} ValueOfConcat(a: string, b: string, radix: nat)
    requires 2 <= radix <= 36 && AllDigits(a, radix) && AllDigits(b, radix)
    ensures AllDigits(a + b, radix)
    ensures ValueOf(a + b, radix) == ValueOf(a, radix) * Pow(radix, |b|) + ValueOf(b, radix)
  {
    if b == [] {
      assert a + b == a;
    } else {
      var b' := b[..|b| - 1];
      ValueOfConcat(a, b', radix);
      assert (a + b)[..|a + b| - 1] == a + b';
      assert (a + b)[|a + b| - 1] == b[|b| - 1];
      ShiftDistributes(ValueOf(a, radix), Pow(radix, |b'|), ValueOf(b', radix), radix,
                       DigitValue(b[|b| - 1], radix).value);
    }
  }

  lemma {:induction false} PowGrows(base: nat, a: nat, b: nat)
    requires base >= 1 && a <= b
    ensures Pow(base, a) <= Pow(base, b)
  {
    if a < b {
      PowGrows(base, a, b - 1);
      MulLe(1, base, Pow(base, b - 1));
    }
  }

  /** Quotient and remainder are the unique pair with `x == q * d + m` and `0 <= m < d`. */
  lemma DivModUnique(x: int, d: int, q: int, m: int)
    requires d > 0 && 0 <= m < d && x == q * d + m
    ensures x / d == q && x % d == m
  {
    var q', m' := x / d, x % d;
    assert x == q' * d + m';
    assert (q - q') * d == m' - m;
    if q > q' {
      MulLe(1, q - q', d);
    } else if q < q' {
      MulLe(1, q' - q, d);
    }
  }

  lemma MulLe(a: int, b: int, c: int)
    requires a <= b && c >= 0
    ensures a * c <= b * c
  {
    assert b * c == a * c + (b - a) * c;
  }

  lemma ShiftDistributes(va: int, p: int, vb: int, radix: int, d: int)
    ensures (va * p + vb) * radix + d == va * (p * radix) + (vb * radix + d)
  {
  }
}
