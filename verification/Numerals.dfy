/** Numerals by position: what a string of digits is worth, told without the arithmetic on characters
    that the conversions use, and what the conversions make of it. */
module Numerals {
  import opened Text
  import opened CLib
  import opened Libft

  predicate IsHexDigit(c: char) { c in "0123456789abcdef" || c in "0123456789ABCDEF" }

  predicate IsDecimalDigit(c: char) { c in "0123456789" }

  /** The place of a digit among the digits; 16 for any other character. */
  function Place(c: char): (v: nat)
    ensures v <= 16
  {
    if c in "0123456789abcdef" then IndexOf("0123456789abcdef", c) else IndexOf("0123456789ABCDEF", c)
  }

  /** The value of a numeral: each further digit counts once, and all before it `base` times more. */
  function Value(s: string, base: nat): nat {
    if s == "" then 0 else Horner(Value(s[..|s| - 1], base), base, Place(s[|s| - 1]))
  }

  function Horner(v: nat, base: nat, digit: nat): nat { v * base + digit }

  predicate AllHex(s: string) { forall i :: 0 <= i < |s| ==> IsHexDigit(s[i]) }

  predicate AllDecimal(s: string) { forall i :: 0 <= i < |s| ==> IsDecimalDigit(s[i]) }

  /** White space as the C library has it. */
  predicate AllWhite(s: string) { forall i :: 0 <= i < |s| ==> s[i] in " \t\n\U{0b}\U{0c}\r" }

  // ------------------------------------------------------------- one digit

  lemma DigitAt(k: nat)
    requires k < 16
    ensures "0123456789abcdef"[k] == if k < 10 then (k + 48) as char else (k + 87) as char
    ensures "0123456789ABCDEF"[k] == if k < 10 then (k + 48) as char else (k + 55) as char
  {
    if k < 8 { if k < 4 {} else {} } else { if k < 12 {} else {} }
  }

  /** The arithmetic on a digit finds its place. */
  lemma PlaceIs(c: char)
    ensures IsHexDigit(c) <==> DigitValue(c) < 16
    ensures IsHexDigit(c) ==> Place(c) == DigitValue(c)
    ensures !IsHexDigit(c) ==> Place(c) == 16
    ensures IsDecimalDigit(c) <==> DigitValue(c) < 10
  {
    var low, up := "0123456789abcdef", "0123456789ABCDEF";
    forall k | 0 <= k < 16 ensures DigitValue(low[k]) == k && DigitValue(up[k]) == k { DigitAt(k); }
    var v := DigitValue(c);
    if v < 16 {
      DigitAt(v);
      if low[v] == c {
        IndexOfIs(low, c, 0, v);
        assert c in low;
      } else {
        assert up[v] == c;
        assert c !in low;
        IndexOfIs(up, c, 0, v);
      }
    } else {
      assert c !in low && c !in up;
      IndexOfIs(up, c, 0, 16);
    }
    var ten := "0123456789";
    assert forall k :: 0 <= k < 10 ==> ten[k] == low[k];
    if v < 10 { assert ten[v] == c; }
    if c in ten {
      var k :| 0 <= k < 10 && ten[k] == c;
      assert DigitValue(low[k]) == k;
    }
  }

  /** Reading a numeral from the left gives its value, and stops behind it. */
  lemma {:induction false} DigitsAre(s: string, rest: string, base: nat)
    requires base <= 16 && forall i :: 0 <= i < |s| ==> IsHexDigit(s[i]) && Place(s[i]) < base
    ensures Digits(s + rest, base, 0) == Digits(rest, base, Value(s, base))
    decreases |s|
  {
    hide Place, IsHexDigit, DigitValue;
    if s == "" {
      assert s + rest == rest;
    } else {
      var front, c := s[..|s| - 1], s[|s| - 1];
      assert s + rest == front + ([c] + rest);
      DigitsAre(front, [c] + rest, base);
      assert ([c] + rest)[1..] == rest;
      PlaceIs(c);
    }
  }

  lemma ValueRead(s: string, rest: string, base: nat)
    requires base == 10 || base == 16
    requires forall i :: 0 <= i < |s| ==> if base == 10 then IsDecimalDigit(s[i]) else IsHexDigit(s[i])
    requires rest == "" || !(if base == 10 then IsDecimalDigit(rest[0]) else IsHexDigit(rest[0]))
    ensures Digits(s + rest, base, 0) == Value(s, base)
  {
    hide Place, IsHexDigit, IsDecimalDigit, DigitValue;
    forall i | 0 <= i < |s| ensures IsHexDigit(s[i]) && Place(s[i]) < base { PlaceIs(s[i]); }
    DigitsAre(s, rest, base);
    if rest != "" { PlaceIs(rest[0]); }
  }

  // ---------------------------------------------------------------- strtol

  lemma WhiteIs(c: char)
    ensures c in " \t\n\U{0b}\U{0c}\r" <==> IsSpace(c)
  {
    var s := " \t\n\U{0b}\U{0c}\r";
    assert s[0] == ' ' && s[1] == '\t' && s[2] == '\n' && s[3] == '\U{0b}' && s[4] == '\U{0c}' && s[5] == '\r';
  }

  lemma {:induction false} WhiteSkipped(blanks: string, rest: string)
    requires AllWhite(blanks) && (rest == "" || !IsSpace(rest[0]))
    ensures SkipWhite(blanks + rest) == rest
    decreases |blanks|
  {
    hide IsSpace;
    if blanks == "" {
      assert blanks + rest == rest;
    } else {
      WhiteIs(blanks[0]);
      assert (blanks + rest)[1..] == blanks[1..] + rest;
      WhiteSkipped(blanks[1..], rest);
    }
  }

  predicate IsSign(sign: string) { sign == "" || sign == "+" || sign == "-" }

  /** White space and a sign are taken off, one sign at most. */
  lemma SignTaken(blanks: string, sign: string, rest: string)
    requires AllWhite(blanks) && IsSign(sign)
    requires sign == "" && rest != "" ==> rest[0] != '+' && rest[0] != '-' && !IsSpace(rest[0])
    ensures
      var t := SkipWhite(blanks + sign + rest);
      && (Signed(t) <==> sign != "") && (t != "" && t[0] == '-' <==> sign == "-")
      && (if Signed(t) then t[1..] else t) == rest
  {
    assert blanks + sign + rest == blanks + (sign + rest);
    WhiteSkipped(blanks, sign + rest);
    if sign == "" { assert sign + rest == rest; } else { assert (sign + rest)[1..] == rest; }
  }

  predicate IsHexPrefix(s: string) { s == "0x" || s == "0X" }

  /** What would make a "0" in front of it a prefix. */
  predicate XAndDigit(rest: string) {
    |rest| >= 2 && (rest[0] == 'x' || rest[0] == 'X') && IsHexDigit(rest[1])
  }

  /** strtol with base 16: white space, a sign, "0x" or nothing, and digits; the value is cut off at
      the limits of long. */
  lemma StrtolReads(blanks: string, sign: string, prefix: string, digits: string, rest: string)
    requires AllWhite(blanks) && IsSign(sign) && (prefix == "" || IsHexPrefix(prefix))
    requires digits != "" && AllHex(digits) && (rest == "" || !IsHexDigit(rest[0]))
    requires prefix == "" && digits == "0" ==> !XAndDigit(rest)
    ensures
      var v: int := if sign == "-" then 0 - Value(digits, 16) else Value(digits, 16);
      Strtol(blanks + sign + (prefix + digits + rest), 16) ==
        if v > 9223372036854775807 then 9223372036854775807
        else if v < -9223372036854775808 then -9223372036854775808
        else v
  {
    hide Value, IsHexDigit, DigitValue, Digits, AllWhite, AllHex, IsHexPrefix, HasHexPrefix, SkipWhite, Signed,
        IsSpace;
    var u := prefix + digits + rest;
    assert IsHexDigit(digits[0]) by { AllHexAt(digits, 0); }
    FirstOfNumeral(prefix, digits, rest);
    PrefixSeen(prefix, digits, rest);
    SignTaken(blanks, sign, u);
    HexRead(digits, rest);
  }

  lemma AllHexAt(s: string, i: nat)
    requires AllHex(s) && i < |s|
    ensures IsHexDigit(s[i])
  {
  }

  lemma HexRead(digits: string, rest: string)
    requires AllHex(digits) && (rest == "" || !IsHexDigit(rest[0]))
    ensures Digits(digits + rest, 16, 0) == Value(digits, 16)
  {
    hide IsHexDigit, IsDecimalDigit, Digits, Value;
    ValueRead(digits, rest, 16);
  }

  lemma PrefixSeen(prefix: string, digits: string, rest: string)
    requires prefix == "" || IsHexPrefix(prefix)
    requires digits != "" && AllHex(digits)
    requires prefix == "" && digits == "0" ==> !XAndDigit(rest)
    ensures
      var u := prefix + digits + rest;
      && (HasHexPrefix(u) <==> prefix != "")
      && (if prefix == "" then u else u[2..]) == digits + rest
  {
    hide Place, IsHexDigit, DigitValue;
    var u := prefix + digits + rest;
    PlaceIs(digits[0]);
    if prefix == "" {
      assert u == digits + rest;
      XIsNoDigit();
      assert |u| >= 2 ==> u[1] == if |digits| > 1 then digits[1] else rest[0];
      if |digits| == 1 && |rest| > 1 {
        assert u[2] == rest[1];
        PlaceIs(rest[1]);
        if digits[0] == '0' { assert digits == "0"; }
      }
    } else {
      assert u[0] == '0' && u[1] == prefix[1] && u[2] == digits[0];
      assert u[2..] == digits + rest;
    }
  }

  lemma XIsNoDigit()
    ensures !IsHexDigit('x') && !IsHexDigit('X') && DigitValue('x') >= 16 && DigitValue('X') >= 16
  {
    PlaceIs('x');
    PlaceIs('X');
  }

  lemma FirstOfNumeral(prefix: string, digits: string, rest: string)
    requires prefix == "" || IsHexPrefix(prefix)
    requires digits != "" && IsHexDigit(digits[0])
    ensures var u := prefix + digits + rest; u != "" && !IsSpace(u[0]) && u[0] != '+' && u[0] != '-'
  {
    PlaceIs(digits[0]);
    assert (prefix + digits + rest)[0] == if prefix == "" then digits[0] else '0';
  }

  /** Without a digit the result is 0. */
  lemma StrtolReadsNothing(blanks: string, sign: string, rest: string)
    requires AllWhite(blanks) && IsSign(sign) && (rest == "" || !IsHexDigit(rest[0]))
    requires sign == "" && rest != "" ==> rest[0] != '+' && rest[0] != '-' && !IsSpace(rest[0])
    ensures Strtol(blanks + sign + rest, 16) == 0
  {
    hide Place, IsHexDigit, DigitValue, AllWhite;
    SignTaken(blanks, sign, rest);
    ValueRead("", rest, 16);
    assert "" + rest == rest;
    if rest != "" { PlaceIs(rest[0]); }
    PlaceIs('0');
    ZeroIsDigit();
  }

  lemma ZeroIsDigit()
    ensures IsHexDigit('0')
  {
    PlaceIs('0');
  }

  // ------------------------------------------------------------------- stoi

  /** stoi: white space, a sign and decimal digits, modulo 2^64; 0 without digits. */
  lemma StoiReads(blanks: string, sign: string, digits: string, rest: string)
    requires AllWhite(blanks) && IsSign(sign) && AllDecimal(digits) && (rest == "" || !IsDecimalDigit(rest[0]))
    requires sign == "" && digits == "" && rest != "" ==> rest[0] != '+' && rest[0] != '-' && !IsSpace(rest[0])
    ensures
      var v: int := if sign == "-" then 0 - Value(digits, 10) else Value(digits, 10);
      StoiValue(blanks + sign + (digits + rest)) == v % 18446744073709551616
  {
    hide Value, Place, IsHexDigit, IsDecimalDigit, DigitValue, Digits, AllWhite;
    var u := digits + rest;
    if digits != "" {
      PlaceIs(digits[0]);
      DecimalIsPlain(digits[0]);
    } else {
      assert u == rest;
    }
    SignTaken(blanks, sign, u);
    ValueRead(digits, rest, 10);
  }

  lemma DecimalIsPlain(c: char)
    requires IsDecimalDigit(c)
    ensures !IsSpace(c) && c != '+' && c != '-'
  {
    PlaceIs(c);
  }

  // ----------------------------------------------------------- decimal notation

  /** The decimal notation of n: decimal digits with the value n, and no zero in front. */
  lemma {:induction false} DigitsOfIs(n: nat)
    ensures AllDecimal(DigitsOf(n)) && Value(DigitsOf(n), 10) == n && DigitsOf(n) != ""
    ensures |DigitsOf(n)| > 1 ==> DigitsOf(n)[0] != '0'
  {
    hide Place, IsHexDigit, IsDecimalDigit, DigitValue;
    var c := DigitChar(n % 10);
    PlaceIs(c);
    assert [c][..0] == "";
    if n >= 10 {
      DigitsOfIs(n / 10);
      var front := DigitsOf(n / 10);
      assert (front + [c])[..|front + [c]| - 1] == front;
      assert (front + [c])[0] == front[0];
      if |front| == 1 && front[0] == '0' { ZeroAlone(front); }
    }
  }

  lemma ZeroAlone(s: string)
    requires |s| == 1 && s[0] == '0'
    ensures Value(s, 10) == 0
  {
    hide Place, IsHexDigit;
    ZeroIsDigit();
    PlaceIs('0');
    assert s[..0] == "";
  }

  lemma DecimalIs(n: int)
    ensures n >= 0 ==> AllDecimal(Decimal(n)) && Value(Decimal(n), 10) == n
    ensures n < 0 ==> Decimal(n) == "-" + Decimal(-n)
    ensures n >= 10 ==> Decimal(n)[0] != '0'
  {
    hide Value, DigitsOf, AllDecimal;
    DigitsOfIs(if n < 0 then -n else n);
    if n >= 10 { TwoDigits(n); }
  }

  lemma TwoDigits(n: nat)
    requires n >= 10
    ensures |DigitsOf(n)| > 1
  {
  }
}
