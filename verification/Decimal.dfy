/** `std::to_string` on lengths and `std::stoi`, the number printer and reader of the HTTP codec. */
module Decimal {
  import opened Bytes

  datatype StoiResult = Number(value: int) | Threw

  predicate IsDigit(c: char) { '0' <= c <= '9' }

  predicate AllDigits(s: Bytes) { forall i :: 0 <= i < |s| ==> IsDigit(s[i]) }

  /** `isspace` in the C locale. */
  predicate IsSpace(c: char) { c == ' ' || 9 <= c as int <= 13 }

  function Digit(d: nat): char
    requires d < 10
  {
    (48 + d) as char
  }

  /** `std::to_string`. */
  function Dec(n: nat): (r: Bytes)
    ensures |r| > 0 && AllDigits(r)
  {
    if n < 10 then [Digit(n)] else Dec(n / 10) + [Digit(n % 10)]
  }

  /** The value of a digit string. */
  function Value(s: Bytes): nat
    requires AllDigits(s)
  {
    if s == [] then 0 else Value(s[..|s| - 1]) * 10 + (s[|s| - 1] as int - 48)
  }

  /** The length of the longest prefix of `s` made of digits. */
  function DigitsLen(s: Bytes): (r: nat)
    ensures r <= |s| && AllDigits(s[..r])
    ensures r < |s| ==> !IsDigit(s[r])
  {
    if s == [] || !IsDigit(s[0]) then 0
    else
      var r := 1 + DigitsLen(s[1..]);
      assert forall i :: 1 <= i < r ==> s[i] == s[1..][..r - 1][i - 1];
      r
  }

  function SkipSpaces(s: Bytes): Bytes
  {
    if s != [] && IsSpace(s[0]) then SkipSpaces(s[1..]) else s
  }

  /** `std::stoi`: white space, an optional sign, digits, then anything.  It throws when there is
      no digit and when the value is outside the range of `int`. */
  function Stoi(s: Bytes): StoiResult { StoiSigned(SkipSpaces(s)) }

  function StoiSigned(t: Bytes): StoiResult
  {
    if t != [] && (t[0] == '-' || t[0] == '+') then StoiDigits(t[0] == '-', t[1..]) else StoiDigits(false, t)
  }

  function StoiDigits(negative: bool, t: Bytes): StoiResult
  {
    var k := DigitsLen(t);
    var v: int := Value(t[..k]);
    var value: int := if negative then -v else v;
    if k == 0 || !(-0x8000_0000 <= value <= INT_MAX) then Threw else Number(value)
  }

  predicate AllSpaces(s: Bytes) { forall i :: 0 <= i < |s| ==> IsSpace(s[i]) }

  predicate IsSign(s: Bytes) { s == "" || s == "+" || s == "-" }

  /** A number as `std::stoi` reads it. */
  predicate Numeral(s: Bytes, spaces: Bytes, sign: Bytes, digits: Bytes, rest: Bytes)
  {
    && s == spaces + sign + digits + rest
    && AllSpaces(spaces) && IsSign(sign) && digits != [] && AllDigits(digits)
    && (rest != [] ==> !IsDigit(rest[0]))
  }

  lemma {:induction false} SkipSpacesOf(spaces: Bytes, t: Bytes)
    requires AllSpaces(spaces) && (t != [] ==> !IsSpace(t[0]))
    ensures SkipSpaces(spaces + t) == t
  {
    if spaces == [] {
      assert [] + t == t;
    } else {
      SkipSpacesOf(spaces[1..], t);
      assert (spaces + t)[1..] == spaces[1..] + t;
    }
  }

  lemma {:induction false} DigitsLenOf(digits: Bytes, rest: Bytes)
    requires AllDigits(digits) && (rest != [] ==> !IsDigit(rest[0]))
    ensures DigitsLen(digits + rest) == |digits|
  {
    if digits == [] {
      assert [] + rest == rest;
    } else {
      DigitsLenOf(digits[1..], rest);
      assert (digits + rest)[1..] == digits[1..] + rest;
    }
  }

  /** Every numeral gives its value if that is an `int`, and throws otherwise. */
  lemma StoiOfNumeral(s: Bytes, spaces: Bytes, sign: Bytes, digits: Bytes, rest: Bytes)
    requires Numeral(s, spaces, sign, digits, rest)
    ensures var v := Value(digits) as int;
            var n := if sign == "-" then -v else v;
            Stoi(s) == if -0x8000_0000 <= n <= 0x7fff_ffff then Number(n) else Threw
  {
    var d := digits + rest;
    var t := sign + d;
    assert s == spaces + t;
    assert IsDigit(digits[0]);
    assert t[0] == if sign == "" then digits[0] else sign[0];
    SkipSpacesOf(spaces, t);
    SignedOf(sign, d);
    DigitsOf(sign == "-", digits, rest);
    hide StoiDigits;
    hide StoiSigned;
  }

  lemma SignedOf(sign: Bytes, t: Bytes)
    requires IsSign(sign) && t != [] && IsDigit(t[0])
    ensures StoiSigned(sign + t) == StoiDigits(sign == "-", t)
  {
    hide StoiDigits;
    if sign == "" {
      assert sign + t == t;
    } else {
      assert (sign + t)[1..] == t;
    }
  }

  lemma DigitsOf(negative: bool, digits: Bytes, rest: Bytes)
    requires digits != [] && AllDigits(digits) && (rest != [] ==> !IsDigit(rest[0]))
    ensures var v := Value(digits) as int;
            var n := if negative then -v else v;
            StoiDigits(negative, digits + rest) == if -0x8000_0000 <= n <= 0x7fff_ffff then Number(n) else Threw
  {
    DigitsLenOf(digits, rest);
    assert (digits + rest)[..|digits|] == digits;
  }

  lemma {:induction false} SpacesSkipped(s: Bytes) returns (spaces: Bytes)
    ensures s == spaces + SkipSpaces(s) && AllSpaces(spaces)
  {
    if s != [] && IsSpace(s[0]) {
      var more := SpacesSkipped(s[1..]);
      spaces := [s[0]] + more;
      assert s == [s[0]] + s[1..];
    } else {
      spaces := [];
    }
  }

  /** Only numerals are read as numbers. */
  lemma NumeralOfStoi(s: Bytes) returns (spaces: Bytes, sign: Bytes, digits: Bytes, rest: Bytes)
    requires Stoi(s).Number?
    ensures Numeral(s, spaces, sign, digits, rest)
  {
    hide SkipSpaces;
    hide StoiSigned;
    hide IsSign;
    spaces := SpacesSkipped(s);
    var d;
    sign, d := SignSkipped(SkipSpaces(s));
    digits, rest := DigitsSplit(d);
    assert spaces + (sign + (digits + rest)) == spaces + sign + digits + rest;
  }

  lemma SignSkipped(t: Bytes) returns (sign: Bytes, d: Bytes)
    requires StoiSigned(t).Number?
    ensures t == sign + d && IsSign(sign) && DigitsLen(d) > 0
  {
    sign, d := [], t;
    if t != [] && (t[0] == '-' || t[0] == '+') {
      sign, d := [t[0]], t[1..];
    }
  }

  lemma DigitsSplit(d: Bytes) returns (digits: Bytes, rest: Bytes)
    requires DigitsLen(d) > 0
    ensures d == digits + rest && digits != [] && AllDigits(digits) && (rest != [] ==> !IsDigit(rest[0]))
  {
    var k := DigitsLen(d);
    digits, rest := d[..k], d[k..];
  }

  lemma {:induction false} ValueOfDec(n: nat)
    ensures Value(Dec(n)) == n
  {
    if n < 10 {
      assert Dec(n)[..0] == [];
    } else {
      ValueOfDec(n / 10);
      assert Dec(n)[..|Dec(n)| - 1] == Dec(n / 10);
    }
  }

  /** Printing a length and reading it back gives the length, or throws if it exceeds `int`. */
  lemma StoiOfDec(n: nat)
    ensures Stoi(Dec(n)) == if n <= INT_MAX then Number(n) else Threw
  {
    var d := Dec(n);
    assert IsDigit(d[0]);
    assert SkipSpaces(d) == d;
    assert DigitsLen(d) == |d|;
    assert d[..|d|] == d;
    ValueOfDec(n);
  }
}
