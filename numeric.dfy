/**
 * Fixed-width machine integers and Rust's `from_str_radix`, as the lexer
 * (decimal `i32` and `usize` literals) and the hex instruction reader
 * (base-16 `u8` pieces) use them. The target is taken to be 64-bit, so
 * `usize` has 64 bits.
 */
module Numeric {
  import opened Wrappers

  const I32_MIN: int := -0x8000_0000
  const I32_MAX: int := 0x7fff_ffff
  const USIZE_MAX: int := 0xffff_ffff_ffff_ffff
  /** `isize::MAX`: the most bytes a `Vec<u8>` can hold. */
  const ISIZE_MAX: int := 0x7fff_ffff_ffff_ffff

  type u8 = x: int | 0 <= x < 0x100
  type u16 = x: int | 0 <= x < 0x1_0000
  type u32 = x: int | 0 <= x < 0x1_0000_0000
  type i32 = x: int | I32_MIN <= x <= I32_MAX
  type usize = x: int | 0 <= x <= USIZE_MAX

  /** `x as usize` for an `i32`: sign extension, so a negative value wraps to 2^64 + x. */
  function I32AsUsize(x: i32): (r: usize)
    ensures 0 <= x ==> r == x
    ensures x < 0 ==> r > I32_MAX && r - x == USIZE_MAX + 1
  {
    if x < 0 then USIZE_MAX + 1 + x else x
  }

  /** `x as u16` for an `i32`: keeps the low 16 bits (two's complement). */
  function I32AsU16(x: i32): (r: u16)
    ensures 0 <= x < 0x1_0000 ==> r == x
    ensures (x - r) % 0x1_0000 == 0
  {
    x % 0x1_0000
  }

  /** `x as u32` for an `i32`: keeps the bit pattern, so a negative value wraps to 2^32 + x. */
  function I32AsU32(x: i32): (r: u32)
    ensures 0 <= x ==> r == x
    ensures x < 0 ==> r == 0x1_0000_0000 + x
  {
    x % 0x1_0000_0000
  }

  /** The 16-bit value whose big-endian bytes are `hi`, `lo`: `(hi as u16) << 8 | lo as u16`. */
  function BigEndian16(hi: u8, lo: u8): (w: u16)
    ensures w / 0x100 == hi && w % 0x100 == lo
  {
    hi * 0x100 + lo
  }

  /** The error kinds of Rust's `ParseIntError` that `from_str_radix` can produce. */
  datatype IntErrorKind = Empty | InvalidDigit | PosOverflow | NegOverflow

  /** `char::to_digit(radix)` for a radix of at most 36. */
  function DigitValue(c: char, radix: nat): (d: Option<nat>)
    requires radix <= 36
    ensures d.Some? ==> d.value < radix
    ensures radix == 10 ==> (d.Some? <==> '0' <= c <= '9')
  {
    var v :=
      if '0' <= c <= '9' then c as int - '0' as int
      else if 'a' <= c <= 'z' then c as int - 'a' as int + 10
      else if 'A' <= c <= 'Z' then c as int - 'A' as int + 10
      else 36;
    if v < radix then Some(v) else None
  }

  predicate AllDigits(ds: string, radix: nat)
    requires radix <= 36
  {
    forall i :: 0 <= i < |ds| ==> DigitValue(ds[i], radix).Some?
  }

  function Pow(b: nat, e: nat): (p: nat)
    ensures b >= 1 ==> p >= 1
  {
    if e == 0 then 1 else b * Pow(b, e - 1)
  }

  /** The value of a run of digits in positional notation, most significant digit first. */
  function DigitsValue(ds: string, radix: nat): nat
    requires radix <= 36 && AllDigits(ds, radix)
  {
    if ds == [] then 0
    else DigitValue(ds[0], radix).value * Pow(radix, |ds| - 1) + DigitsValue(ds[1..], radix)
  }

  /**
   * The digit loop of `from_str_radix`: digits are taken left to right into
   * `acc`, added for a positive numeral and subtracted for a negative one, and
   * the first character that is not a digit, or the first step that leaves
   * [lo, hi], ends the loop with that error. (Rust checks the multiplication
   * and the addition separately; as digits are never negative, either failing
   * is the same as their combination leaving the range.)
   */
  function Accumulate(ds: string, radix: nat, acc: int, positive: bool, lo: int, hi: int): (r: Result<int, IntErrorKind>)
    requires 2 <= radix <= 36 && lo <= 0 <= hi
    requires positive ==> 0 <= acc <= hi
    requires !positive ==> lo <= acc <= 0
    ensures r.Ok? ==> lo <= r.value <= hi
    decreases |ds|
  {
    if ds == [] then Ok(acc)
    else
      match DigitValue(ds[0], radix)
      case None => Err(InvalidDigit)
      case Some(d) =>
        MulMonotone(acc, radix);
        if positive then
          if acc * radix + d > hi then Err(PosOverflow)
          else Accumulate(ds[1..], radix, acc * radix + d, positive, lo, hi)
        else
          if acc * radix - d < lo then Err(NegOverflow)
          else Accumulate(ds[1..], radix, acc * radix - d, positive, lo, hi)
  }

  /** Whether the numeral's leading character is a sign that `from_str_radix` strips. */
  predicate HasSign(src: string, signed: bool)
  {
    |src| > 0 && (src[0] == '+' || (signed && src[0] == '-'))
  }

  /** The numeral without the sign that `from_str_radix` strips. */
  function Magnitude(src: string, signed: bool): string
  {
    if HasSign(src, signed) then src[1..] else src
  }

  /** The value a well-formed numeral denotes, sign included. */
  function SignedValue(src: string, radix: nat, signed: bool): int
    requires radix <= 36 && AllDigits(Magnitude(src, signed), radix)
  {
    var m: int := DigitsValue(Magnitude(src, signed), radix);
    if HasSign(src, signed) && src[0] == '-' then -m else m
  }

  /**
   * `T::from_str_radix(src, radix)` for an integer type `T` whose values are
   * [lo, hi]; `signed` says whether `T` is signed (only then is a leading `-`
   * a sign). A lone sign is an invalid digit; the empty string is `Empty`.
   */
  function FromStrRadix(src: string, radix: nat, signed: bool, lo: int, hi: int): (r: Result<int, IntErrorKind>)
    requires 2 <= radix <= 36 && lo <= 0 <= hi
    ensures r.Ok? ==> lo <= r.value <= hi
    ensures src == [] ==> r == Err(Empty)
  {
    if src == [] then Err(Empty)
    else if |src| == 1 && (src[0] == '+' || src[0] == '-') then Err(InvalidDigit)
    else if src[0] == '+' then Accumulate(src[1..], radix, 0, true, lo, hi)
    else if src[0] == '-' && signed then Accumulate(src[1..], radix, 0, false, lo, hi)
    else Accumulate(src, radix, 0, true, lo, hi)
  }

  /** `i32::from_str_radix(s, 10)`. */
  function ParseI32(s: string): Result<int, IntErrorKind>
  {
    FromStrRadix(s, 10, true, I32_MIN, I32_MAX)
  }

  /** `usize::from_str_radix(s, 10)`. */
  function ParseUsize(s: string): Result<int, IntErrorKind>
  {
    FromStrRadix(s, 10, false, 0, USIZE_MAX)
  }

  /** `u8::from_str_radix(s, 16)`. */
  function ParseHexU8(s: string): Result<int, IntErrorKind>
  {
    FromStrRadix(s, 16, false, 0, 0xff)
  }

  /** Splitting off the leading digit: `acc·R^n + s·(d·R^(n-1) + rest) == (acc·R + s·d)·R^(n-1) + s·rest`. */
  lemma RegroupLeadingDigit(acc: int, radix: nat, d: nat, n: nat, rest: int, sign: int)
    requires n >= 1 && (sign == 1 || sign == -1)
    ensures acc * Pow(radix, n) + sign * (d * Pow(radix, n - 1) + rest)
         == (acc * radix + sign * d) * Pow(radix, n - 1) + sign * rest
  {
    var p := Pow(radix, n - 1);
    assert Pow(radix, n) == radix * p;
    assert acc * (radix * p) == (acc * radix) * p;
    assert sign * (d * p + rest) == (sign * d) * p + sign * rest;
    assert (acc * radix) * p + (sign * d) * p == (acc * radix + sign * d) * p;
  }

  lemma MulMonotone(a: int, p: nat)
    requires p >= 1
    ensures a >= 0 ==> a * p >= a
    ensures a <= 0 ==> a * p <= a
  {
  }

  /**
   * Taking the leading digit `d` into `acc` keeps the carried-on value: the
   * whole run read from `acc` is the rest read from `acc * radix ± d`, and that
   * is no nearer zero than its starting point.
   */
  lemma LeadingDigitCarried(ds: string, radix: nat, acc: int, sign: int, d: nat)
    requires 2 <= radix <= 36 && (sign == 1 || sign == -1)
    requires ds != [] && DigitValue(ds[0], radix) == Some(d)
    ensures AllDigits(ds, radix) <==> AllDigits(ds[1..], radix)
    ensures AllDigits(ds, radix) ==>
              var acc' := acc * radix + sign * d;
              var total' := acc' * Pow(radix, |ds| - 1) + sign * DigitsValue(ds[1..], radix);
              && acc * Pow(radix, |ds|) + sign * DigitsValue(ds, radix) == total'
              && (acc' >= 0 && sign == 1 ==> total' >= acc')
              && (acc' <= 0 && sign == -1 ==> total' <= acc')
  {
    var rest := ds[1..];
    assert forall i :: 0 <= i < |rest| ==> rest[i] == ds[i + 1];
    if AllDigits(ds, radix) {
      var acc' := acc * radix + sign * d;
      RegroupLeadingDigit(acc, radix, d, |ds|, DigitsValue(rest, radix), sign);
      MulMonotone(acc', Pow(radix, |rest|));
    }
  }

  /**
   * The digit loop succeeds exactly on a run of digits whose positional value,
   * carried on from `acc`, stays within [lo, hi]; the prefixes then do too,
   * as every step moves `acc` away from zero.
   */
  lemma {:induction false} AccumulateValue(ds: string, radix: nat, acc: int, positive: bool, lo: int, hi: int)
    requires 2 <= radix <= 36 && lo <= 0 <= hi
    requires positive ==> 0 <= acc <= hi
    requires !positive ==> lo <= acc <= 0
    ensures var total := if AllDigits(ds, radix)
                         then acc * Pow(radix, |ds|) + (if positive then 1 else -1) * DigitsValue(ds, radix)
                         else 0;
            && (Accumulate(ds, radix, acc, positive, lo, hi).Ok? <==> AllDigits(ds, radix) && lo <= total <= hi)
            && (Accumulate(ds, radix, acc, positive, lo, hi).Ok? ==> Accumulate(ds, radix, acc, positive, lo, hi).value == total)
    decreases |ds|
  {
    var sign := if positive then 1 else -1;
    if ds != [] {
      match DigitValue(ds[0], radix)
      case None =>
        assert !AllDigits(ds, radix);
      case Some(d) =>
        var acc' := acc * radix + sign * d;
        MulMonotone(acc, radix);
        LeadingDigitCarried(ds, radix, acc, sign, d);
        if (positive && acc' <= hi) || (!positive && acc' >= lo) {
          assert Accumulate(ds, radix, acc, positive, lo, hi) == Accumulate(ds[1..], radix, acc', positive, lo, hi);
          AccumulateValue(ds[1..], radix, acc', positive, lo, hi);
          if AllDigits(ds, radix) {
            assert acc * Pow(radix, |ds|) + sign * DigitsValue(ds, radix)
                == acc' * Pow(radix, |ds[1..]|) + sign * DigitsValue(ds[1..], radix);
          }
        } else {
          assert Accumulate(ds, radix, acc, positive, lo, hi).Err?;
        }
    }
  }

  /**
   * `from_str_radix` accepts exactly an optional sign followed by a non-empty
   * run of digits whose value lies in the type's range, and returns that value.
   */
  lemma FromStrRadixCharacterised(src: string, radix: nat, signed: bool, lo: int, hi: int)
    requires 2 <= radix <= 36 && lo <= 0 <= hi
    ensures var m := Magnitude(src, signed);
            (FromStrRadix(src, radix, signed, lo, hi).Ok? <==>
             |m| > 0 && AllDigits(m, radix) && lo <= SignedValue(src, radix, signed) <= hi)
    ensures FromStrRadix(src, radix, signed, lo, hi).Ok? ==>
              FromStrRadix(src, radix, signed, lo, hi).value == SignedValue(src, radix, signed)
  {
    var m := Magnitude(src, signed);
    if src == [] {
    } else if |src| == 1 && (src[0] == '+' || src[0] == '-') {
      if !HasSign(src, signed) {
        assert DigitValue(src[0], radix).None?;
      }
    } else {
      var negative := HasSign(src, signed) && src[0] == '-';
      AccumulateValue(m, radix, 0, !negative, lo, hi);
      if AllDigits(m, radix) {
        assert 0 * Pow(radix, |m|) == 0;
      }
      if !HasSign(src, signed) && |m| > 0 {
        assert DigitValue(src[0], radix).Some? ==> src[0] != '+' && src[0] != '-';
      }
    }
  }

  /** A non-empty run of decimal digits whose value is an `i32` parses to that value. */
  lemma ParseI32Digits(ds: string)
    requires |ds| > 0 && AllDigits(ds, 10) && DigitsValue(ds, 10) <= I32_MAX
    ensures ParseI32(ds) == Ok(DigitsValue(ds, 10))
  {
    assert !HasSign(ds, true) by { assert DigitValue(ds[0], 10).Some?; }
    FromStrRadixCharacterised(ds, 10, true, I32_MIN, I32_MAX);
  }

  /** A non-empty run of decimal digits whose value fits 64 bits parses as a `usize`. */
  lemma ParseUsizeDigits(ds: string)
    requires |ds| > 0 && AllDigits(ds, 10) && DigitsValue(ds, 10) <= USIZE_MAX
    ensures ParseUsize(ds) == Ok(DigitsValue(ds, 10))
  {
    assert !HasSign(ds, false) by { assert DigitValue(ds[0], 10).Some?; }
    FromStrRadixCharacterised(ds, 10, false, 0, USIZE_MAX);
  }
}
