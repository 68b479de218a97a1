/** The scalar printers of the encoder and the built-in scalar converters of the decoder. */
module Converter {
  import opened Wrappers

  function Digit(d: nat): char
    requires d < 10
  {
    ('0' as int + d) as char
  }

  predicate IsDigit(c: char) { '0' <= c <= '9' }

  predicate AllDigits(s: string) { forall i :: 0 <= i < |s| ==> IsDigit(s[i]) }

  function DigitsValue(s: string): nat
    requires AllDigits(s)
  {
    if s == "" then 0
    else 10 * DigitsValue(s[..|s| - 1]) + (s[|s| - 1] as int - '0' as int)
  }

  function Pow2(n: nat): (p: nat)
    ensures p >= 1
  {
    if n == 0 then 1 else 2 * Pow2(n - 1)
  }

  /** `strconv.FormatUint(n, 10)`. */
  function FormatUint(n: nat): string {
    if n < 10 then [Digit(n)] else FormatUint(n / 10) + [Digit(n % 10)]
  }

  /** `strconv.FormatInt(n, 10)`. */
  function FormatInt(n: int): string {
    if n < 0 then "-" + FormatUint(-n) else FormatUint(n)
  }

  /** `strconv.FormatBool`. */
  function FormatBool(b: bool): string {
    if b then "true" else "false"
  }

  /** `strconv.ParseUint(s, 10, bits)`: digits only, and the value must fit. */
  function ParseUint(s: string, bits: nat): Option<int> {
    if s != "" && AllDigits(s) && DigitsValue(s) < Pow2(bits) then Some(DigitsValue(s)) else None
  }

  /** `strconv.ParseInt(s, 10, bits)`: an optional sign, digits, and the value must fit. */
  function ParseInt(s: string, bits: nat): Option<int>
    requires bits > 0
  {
    var signed := s != "" && (s[0] == '-' || s[0] == '+');
    var digits := if signed then s[1..] else s;
    if digits == "" || !AllDigits(digits) then None
    else
      var magnitude: int := DigitsValue(digits);
      if signed && s[0] == '-' then
        if magnitude <= Pow2(bits - 1) then Some(-magnitude) else None
      else
        if magnitude < Pow2(bits - 1) then Some(magnitude) else None
  }

  /** `convertBool`: "on", or whatever `strconv.ParseBool` accepts. */
  function ParseBool(s: string): Option<bool> {
    if s == "on" || s in ["1", "t", "T", "TRUE", "true", "True"] then Some(true)
    else if s in ["0", "f", "F", "FALSE", "false", "False"] then Some(false)
    else None
  }

  lemma {:induction false} FormatUintReadsBack(n: nat)
    ensures FormatUint(n) != "" && AllDigits(FormatUint(n)) && DigitsValue(FormatUint(n)) == n
  {
    if n < 10 {
      assert FormatUint(n)[..0] == "";
    } else {
      FormatUintReadsBack(n / 10);
      var front, s := FormatUint(n / 10), FormatUint(n);
      assert s[..|s| - 1] == front;
    }
  }

  /** Printing an unsigned number and parsing it at a width it fits gives the number back. */
  lemma ParseFormatUint(n: nat, bits: nat)
    ensures ParseUint(FormatUint(n), bits) == if n < Pow2(bits) then Some(n) else None
  {
    FormatUintReadsBack(n);
  }

  /** Printing a signed number and parsing it back succeeds exactly at the widths it fits. */
  lemma ParseFormatInt(n: int, bits: nat)
    requires bits > 0
    ensures ParseInt(FormatInt(n), bits) ==
            if 0 - Pow2(bits - 1) <= n < Pow2(bits - 1) then Some(n) else None
  {
    FormatUintReadsBack(if n < 0 then -n else n);
    if n < 0 {
      assert FormatInt(n)[1..] == FormatUint(-n);
    } else {
      assert IsDigit(FormatUint(n)[0]);
    }
  }

  lemma ParseFormatBool(b: bool)
    ensures ParseBool(FormatBool(b)) == Some(b)
    ensures FormatBool(b) != ""
  {
    assert "true" == ['t', 'r', 'u', 'e'];
  }

  lemma FormatIntNonEmpty(n: int)
    ensures FormatInt(n) != ""
  {
    FormatUintReadsBack(if n < 0 then -n else n);
  }

  // ------------------------------------------------------------------------- which texts parse

  /** Decimal notation, digit by digit. */
  lemma FormatDecimal(n: nat, d: nat)
    requires d < 10
    ensures FormatUint(d) == ["0123456789"[d]]
    ensures n > 0 ==> FormatUint(10 * n + d) == FormatUint(n) + ["0123456789"[d]]
  {}

  /** The number as it is printed, behind any number of zeros. */
  ghost predicate IsNumeral(s: string, n: nat) {
    exists z: nat :: s == Zeros(z) + FormatUint(n)
  }

  function Zeros(z: nat): string {
    seq(z, i => '0')
  }

  lemma {:induction false} NumeralValue(z: nat, n: nat)
    ensures var s := Zeros(z) + FormatUint(n); s != "" && AllDigits(s) && DigitsValue(s) == n
    decreases n
  {
    var s := Zeros(z) + FormatUint(n);
    FormatUintReadsBack(n);
    if n < 10 {
      ZerosValue(z);
      assert s[..|s| - 1] == Zeros(z);
    } else {
      NumeralValue(z, n / 10);
      assert s[..|s| - 1] == Zeros(z) + FormatUint(n / 10);
    }
  }

  lemma {:induction false} ZerosValue(z: nat)
    ensures AllDigits(Zeros(z)) && DigitsValue(Zeros(z)) == 0
  {
    if z > 0 {
      ZerosValue(z - 1);
      assert Zeros(z)[..z - 1] == Zeros(z - 1);
    }
  }

  lemma NumeralLonger(front: string, m: nat, d: nat)
    requires d < 10 && IsNumeral(front, m)
    ensures IsNumeral(front + [Digit(d)], 10 * m + d)
  {
    hide FormatUint;
    FormatDecimal(m, d);
    FormatDecimal(0, 0);
    var z: nat :| front == Zeros(z) + FormatUint(m);
    if m == 0 {
      assert front + [Digit(d)] == Zeros(z + 1) + FormatUint(d);
    } else {
      assert front + [Digit(d)] == Zeros(z) + FormatUint(10 * m + d);
    }
  }

  lemma {:induction false} DigitsAreNumeral(s: string)
    requires s != "" && AllDigits(s)
    ensures IsNumeral(s, DigitsValue(s))
  {
    var front, d := s[..|s| - 1], s[|s| - 1] as int - '0' as int;
    assert s == front + [Digit(d)];
    if front == "" {
      assert DigitsValue(front) == 0;
      assert s == Zeros(0) + FormatUint(d);
    } else {
      DigitsAreNumeral(front);
      NumeralLonger(front, DigitsValue(front), d);
    }
  }

  lemma NumeralIff(s: string, n: nat)
    ensures IsNumeral(s, n) <==> s != "" && AllDigits(s) && DigitsValue(s) == n
  {
    if s != "" && AllDigits(s) {
      DigitsAreNumeral(s);
    }
    if IsNumeral(s, n) {
      var z: nat :| s == Zeros(z) + FormatUint(n);
      NumeralValue(z, n);
    }
  }

  /** What `ParseUint` takes: decimal numbers that fit, with or without leading zeros, and nothing else. */
  lemma ParseUintIff(s: string, bits: nat, n: nat)
    ensures ParseUint(s, bits) == Some(n) <==> n < Pow2(bits) && IsNumeral(s, n)
  {
    NumeralIff(s, n);
  }

  /** What `ParseInt` takes: such a number that fits, with or without a sign in front. */
  lemma ParseIntIff(s: string, bits: nat, i: int)
    requires bits > 0
    ensures ParseInt(s, bits) == Some(i) <==>
            && 0 - Pow2(bits - 1) <= i < Pow2(bits - 1)
            && ((i >= 0 && IsNumeral(s, i)) ||
                (i >= 0 && s != "" && s[0] == '+' && IsNumeral(s[1..], i)) ||
                (i <= 0 && s != "" && s[0] == '-' && IsNumeral(s[1..], -i)))
  {
    hide IsNumeral, DigitsValue, Pow2;
    var m := if i < 0 then -i else i;
    NumeralIff(s, m);
    if s != "" {
      NumeralIff(s[1..], m);
      assert AllDigits(s) ==> IsDigit(s[0]);
    }
  }

  /** Every text that `convertBool` takes. */
  lemma ParseBoolIff(s: string)
    ensures ParseBool(s) == Some(true) <==>
            s == "on" || s == "1" || s == "t" || s == "T" || s == "true" || s == "TRUE" || s == "True"
    ensures ParseBool(s) == Some(false) <==>
            s == "0" || s == "f" || s == "F" || s == "false" || s == "FALSE" || s == "False"
  {
    assert |"on"| == 2 && |"0"| == |"f"| == |"F"| == 1 && |"false"| == |"FALSE"| == |"False"| == 5;
    assert |"1"| == |"t"| == |"T"| == 1 && |"true"| == |"TRUE"| == |"True"| == 4;
    assert 'o' == "on"[0] && '0' == "0"[0] && 'f' == "f"[0] && 'F' == "F"[0];
  }

  lemma Pow2Numbers()
    ensures Pow2(7) == 128 && Pow2(8) == 256 && Pow2(15) == 32768 && Pow2(16) == 65536
    ensures Pow2(31) == 2147483648 && Pow2(32) == 4294967296
    ensures Pow2(63) == 9223372036854775808 && Pow2(64) == 18446744073709551616
  {
    assert Pow2(4) == 16;
    assert Pow2(12) == 4096;
    assert Pow2(20) == 1048576;
    assert Pow2(28) == 268435456;
    assert Pow2(40) == 1099511627776;
    assert Pow2(52) == 4503599627370496;
  }
}
