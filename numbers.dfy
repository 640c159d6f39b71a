/**
 * Decimal integers as the scripts read and write them: `int(text)` for an
 * optionally signed run of ASCII digits, `str(n)` / `f'{n}'`, and the
 * zero-padded field `f'{n:08d}'`.
 */
module Numbers {
  import opened Wrappers

  predicate IsDigit(ch: char)
  {
    '0' <= ch <= '9'
  }

  predicate AllDigits(s: string)
  {
    forall i :: 0 <= i < |s| ==> IsDigit(s[i])
  }

  function DigitChar(d: nat): (ch: char)
    requires d < 10
    ensures IsDigit(ch)
  {
    ['0', '1', '2', '3', '4', '5', '6', '7', '8', '9'][d]
  }

  function DigitValue(ch: char): (d: nat)
    requires IsDigit(ch)
    ensures d < 10 && DigitChar(d) == ch
  {
    (ch as int - '0' as int) as nat
  }

  /** The value of a run of decimal digits, read left to right. */
  function DigitsValue(s: string): nat
    requires AllDigits(s)
  {
    if s == [] then 0 else 10 * DigitsValue(s[..|s| - 1]) + DigitValue(s[|s| - 1])
  }

  /** `str(n)` for `n >= 0`. */
  function NatToString(n: nat): (s: string)
    ensures s != [] && AllDigits(s)
    ensures |s| > 1 ==> s[0] != '0'
  {
    if n < 10 then [DigitChar(n)] else NatToString(n / 10) + [DigitChar(n % 10)]
  }

  /** `str(n)`. */
  function IntToString(n: int): string
  {
    if n < 0 then "-" + NatToString(-n) else NatToString(n)
  }

  /** `int(s)`: an optional `+` or `-` followed by at least one digit; anything else raises `ValueError` (`None`). */
  function ParseInt(s: string): Option<int>
  {
    if s != [] && (s[0] == '+' || s[0] == '-') then
      var digits := s[1..];
      if digits != [] && AllDigits(digits) then
        var v: int := DigitsValue(digits);
        Some(if s[0] == '-' then -v else v)
      else None
    else if s != [] && AllDigits(s) then Some(DigitsValue(s))
    else None
  }

  lemma {:induction false} DigitsValueOfNatToString(n: nat)
    ensures DigitsValue(NatToString(n)) == n
  {
    if n >= 10 {
      DigitsValueOfNatToString(n / 10);
      var s := NatToString(n);
      assert s[..|s| - 1] == NatToString(n / 10);
    }
  }

  /** `int(str(n)) == n`. */
  lemma ParseIntOfIntToString(n: int)
    ensures ParseInt(IntToString(n)) == Some(n)
  {
    var m: nat := if n < 0 then -n else n;
    DigitsValueOfNatToString(m);
    ParseIntDigits(NatToString(m));
  }

  function Zeros(k: nat): (z: string)
    ensures |z| == k && AllDigits(z)
  {
    if k == 0 then "" else Zeros(k - 1) + "0"
  }

  /** Left-pad a digit string with zeros to at least `width` characters. */
  function ZeroFill(digits: string, width: nat): (r: string)
  {
    if |digits| < width then Zeros(width - |digits|) + digits else digits
  }

  /** `f'{n:0{width}d}'`: the sign, then the digits zero-padded so that the whole field has at least `width` characters. */
  function FormatPadded(n: int, width: nat): string
  {
    if n < 0 then "-" + ZeroFill(NatToString(-n), if width > 0 then width - 1 else 0)
    else ZeroFill(NatToString(n), width)
  }

  /** Leading zeros do not change the value of a digit run. */
  lemma {:induction false} DigitsValueLeadingZeros(k: nat, s: string)
    requires AllDigits(s)
    ensures AllDigits(Zeros(k) + s) && DigitsValue(Zeros(k) + s) == DigitsValue(s)
    decreases |s|, k
  {
    var z := Zeros(k);
    if s == [] {
      assert z + s == z;
      if k > 0 {
        assert z[..k - 1] == Zeros(k - 1);
        DigitsValueLeadingZeros(k - 1, "");
        assert Zeros(k - 1) + "" == Zeros(k - 1);
      }
    } else {
      var t := z + s;
      assert t[..|t| - 1] == z + s[..|s| - 1];
      DigitsValueLeadingZeros(k, s[..|s| - 1]);
    }
  }

  /** A zero-filled `str(m)` is a digit run of at least `width` characters with value `m`. */
  lemma ZeroFillValue(m: nat, width: nat)
    ensures var field := ZeroFill(NatToString(m), width);
      |field| >= width && field != [] && AllDigits(field) && DigitsValue(field) == m
  {
    var digits := NatToString(m);
    DigitsValueOfNatToString(m);
    if |digits| < width {
      DigitsValueLeadingZeros(width - |digits|, digits);
    }
  }

  /** `int()` of a digit run, with or without a leading minus sign. */
  lemma ParseIntDigits(field: string)
    requires field != [] && AllDigits(field)
    ensures ParseInt(field) == Some(DigitsValue(field) as int)
    ensures ParseInt("-" + field) == Some(-(DigitsValue(field) as int))
  {
    assert IsDigit(field[0]);
    assert ("-" + field)[1..] == field;
  }

  /** The padded field is at least `width` long and `int()` reads the number back from it. */
  lemma FormatPaddedRoundTrip(n: int, width: nat)
    ensures |FormatPadded(n, width)| >= width
    ensures ParseInt(FormatPadded(n, width)) == Some(n)
  {
    if n < 0 {
      var w := if width > 0 then width - 1 else 0;
      PaddedField(-n, w);
      assert FormatPadded(n, width) == "-" + ZeroFill(NatToString(-n), w);
    } else {
      PaddedField(n, width);
      assert FormatPadded(n, width) == ZeroFill(NatToString(n), width);
    }
  }

  /** `int()` reads `m` back from its zero-filled digits, with or without a minus sign. */
  lemma PaddedField(m: nat, width: nat)
    ensures var field := ZeroFill(NatToString(m), width);
      && |field| >= width
      && ParseInt(field) == Some(m as int)
      && ParseInt("-" + field) == Some(-(m as int))
  {
    var field := ZeroFill(NatToString(m), width);
    ZeroFillValue(m, width);
    ParseIntDigits(field);
  }
}
