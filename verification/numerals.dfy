/** Decimal numerals as the commands read and print task ids: `strconv.Atoi`
    on a 64-bit platform (the id argument of `update` and `delete`),
    `fmt.Sprintf("%d", id)` (the ID column of the list table) and Go's
    conversion `uint(id)` of the parsed value. */
module Numerals {
  import opened Errors

  const MIN_INT64: int := -0x8000_0000_0000_0000
  const MAX_INT64: int := 0x7fff_ffff_ffff_ffff
  /** 2^64: Go's `uint` is 64 bits wide here. */
  const UINT_MODULUS: int := 0x1_0000_0000_0000_0000

  predicate IsDigit(c: char) {
    '0' <= c <= '9'
  }

  predicate AllDigits(s: string) {
    forall i :: 0 <= i < |s| ==> IsDigit(s[i])
  }

  function DigitValue(c: char): (d: nat)
    requires IsDigit(c)
    ensures d < 10
  {
    (c as int) - ('0' as int)
  }

  function DigitChar(d: nat): (c: char)
    requires d < 10
    ensures IsDigit(c) && DigitValue(c) == d
  {
    (('0' as int) + d) as char
  }

  /** The value of a string of decimal digits, most significant first. */
  function DigitsValue(s: string): nat
    requires AllDigits(s)
  {
    if s == [] then 0 else 10 * DigitsValue(s[..|s| - 1]) + DigitValue(s[|s| - 1])
  }

  /** `%d` of a non-negative integer: its shortest decimal numeral. */
  function FormatNat(n: nat): (s: string)
    ensures s != [] && AllDigits(s)
    ensures |s| > 1 ==> s[0] != '0'
  {
    if n < 10 then [DigitChar(n)] else FormatNat(n / 10) + [DigitChar(n % 10)]
  }

  lemma {:induction false} DigitsValueOfFormatNat(n: nat)
    ensures DigitsValue(FormatNat(n)) == n
  {
    if n >= 10 {
      var s := FormatNat(n);
      assert s[..|s| - 1] == FormatNat(n / 10);
      DigitsValueOfFormatNat(n / 10);
    }
  }

  /** The numeral without its sign, if it has one. */
  function Unsigned(s: string): (u: string)
    requires s != []
    ensures |u| <= |s| && forall i :: 0 <= i < |u| ==> u[i] == s[|s| - |u| + i]
  {
    if s[0] == '-' || s[0] == '+' then s[1..] else s
  }

  /** The value of a signed numeral whose unsigned part is all digits. */
  function SignedValue(s: string): int
    requires s != [] && AllDigits(Unsigned(s))
  {
    var magnitude: int := DigitsValue(Unsigned(s));
    if s[0] == '-' then -magnitude else magnitude
  }

  /** `strconv.Atoi`: an optional '+' or '-' followed by at least one
      decimal digit, whose value lies in the 64-bit signed range. Anything
      else (an empty string, a letter, an underscore, an overflow) is an
      error naming the argument. */
  function Atoi(s: string): (r: Result<int>)
    ensures r.Ok? ==> MIN_INT64 <= r.value <= MAX_INT64
    ensures r.Ok? ==> s != [] && Unsigned(s) != [] && AllDigits(Unsigned(s)) && r.value == SignedValue(s)
    ensures r.Ok? ==> |s| > 0 && forall i :: 0 < i < |s| ==> IsDigit(s[i])
    ensures r.Ok? ==> IsDigit(s[0]) || s[0] == '+' || s[0] == '-'
    ensures r.Err? ==> r.error == InvalidArgument(s)
  {
    if s == [] || Unsigned(s) == [] || !AllDigits(Unsigned(s)) then Err(InvalidArgument(s))
    else
      var v := SignedValue(s);
      if v < MIN_INT64 || MAX_INT64 < v then Err(InvalidArgument(s)) else Ok(v)
  }

  /** Conversely, every numeral with or without a sign whose value lies
      in the int64 range is accepted with that value; with `Atoi`'s own
      contract (an accepted string is such a numeral) this fixes the value
      of every accepted string. */
  lemma AtoiAcceptsInRange(sign: string, digits: string)
    requires sign == "" || sign == "+" || sign == "-"
    requires digits != [] && AllDigits(digits)
    requires MIN_INT64 <= (if sign == "-" then -(DigitsValue(digits) as int) else DigitsValue(digits)) <= MAX_INT64
    ensures Atoi(sign + digits) == Ok(if sign == "-" then -(DigitsValue(digits) as int) else DigitsValue(digits))
  {
    var s := sign + digits;
    UnsignedOfSigned(sign, digits);
    assert s[0] == '-' <==> sign == "-" by {
      if sign == "" {
        assert s[0] == digits[0] && IsDigit(digits[0]);
      } else {
        assert s[0] == sign[0];
      }
    }
    assert SignedValue(s) == (if sign == "-" then -(DigitsValue(digits) as int) else DigitsValue(digits));
    AtoiInRange(s);
  }

  /** A bare sign and a numeral outside the int64 range are refused. */
  lemma AtoiRefusesSignOnlyAndOverflow(s: string)
    ensures s == "+" || s == "-" ==> Atoi(s) == Err(InvalidArgument(s))
    ensures s != [] && Unsigned(s) != [] && AllDigits(Unsigned(s)) && !(MIN_INT64 <= SignedValue(s) <= MAX_INT64)
      ==> Atoi(s) == Err(InvalidArgument(s))
  {
  }

  lemma UnsignedOfSigned(sign: string, digits: string)
    requires sign == "" || sign == "+" || sign == "-"
    requires digits != [] && AllDigits(digits)
    ensures Unsigned(sign + digits) == digits
  {
    var s := sign + digits;
    if sign == "" {
      assert s == digits && IsDigit(s[0]);
    } else {
      assert s[0] == sign[0] && s[1..] == digits;
    }
  }

  /** A signed numeral whose value fits in an int64 is accepted. */
  lemma AtoiInRange(s: string)
    requires s != [] && Unsigned(s) != [] && AllDigits(Unsigned(s))
    requires MIN_INT64 <= SignedValue(s) <= MAX_INT64
    ensures Atoi(s) == Ok(SignedValue(s))
  {
  }

  /** Printing an id that fits in an int64 and parsing it back gives the
      same id. */
  lemma AtoiFormatNat(n: nat)
    requires n <= MAX_INT64
    ensures Atoi(FormatNat(n)) == Ok(n)
  {
    var s := FormatNat(n);
    DigitsValueOfFormatNat(n);
    assert IsDigit(s[0]) && Unsigned(s) == s;
    assert SignedValue(s) == n;
  }

  /** Go's `uint(n)` for an int64 `n`: two's-complement reinterpretation,
      so a negative id becomes a value above every int64. */
  function ToUint(n: int): (u: nat)
    requires MIN_INT64 <= n <= MAX_INT64
    ensures u < UINT_MODULUS
    ensures u % UINT_MODULUS == n % UINT_MODULUS
    ensures 0 <= n ==> u == n
    ensures n < 0 ==> MAX_INT64 < u
  {
    if n < 0 then n + UINT_MODULUS else n
  }
}
