/** The integer conversions of libft, with int and size_t arithmetic. */
module Libft {
  import opened Text
  import opened CLib

  type int32 = x: int | INT_MIN <= x <= INT_MAX

  /** The operators / and % of C++, which truncate toward zero. */
  function TruncDiv(a: int, b: int): int
    requires b > 0
  {
    if a >= 0 then a / b else -(-a / b)
  }

  function TruncMod(a: int, b: int): int
    requires b > 0
  {
    a - TruncDiv(a, b) * b
  }

  /** Conversion to size_t. */
  function Wrap64(x: int): (r: int)
    ensures 0 <= r < TWO_64
    ensures 0 <= x < TWO_64 ==> r == x
  {
    x % TWO_64
  }

  /** Conversion to char keeps the low byte. */
  function LowByte(x: nat): char { (x % 256) as char }

  function DigitChar(d: nat): (c: char)
    requires d < 10
    ensures DigitValue(c) == d && c != '-' && c != '+' && !IsSpace(c)
  {
    ('0' as int + d) as char
  }

  function DigitsOf(n: nat): (s: string)
    ensures s != []
  {
    if n < 10 then [DigitChar(n)] else DigitsOf(n / 10) + [DigitChar(n % 10)]
  }

  /** Decimal notation. */
  function Decimal(n: int): string {
    if n < 0 then "-" + DigitsOf(-n) else DigitsOf(n)
  }

  function Abs(n: int): nat { if n < 0 then -n else n }

  /** -n is not an int when n is the least one. */
  method FtNumlen(n: int32) returns (ret: nat)
    requires n > INT_MIN
    ensures ret == |Decimal(n)|
  {
    var m: int := n;
    if n > 0 {
      ret := 0;
    } else if n < 0 {
      ret := 1;
      m := m * -1;
    } else {
      return 1;
    }
    while m != 0
      invariant m >= 0
      invariant |Decimal(n)| == ret + if m == 0 then 0 else |DigitsOf(m)|
    {
      ret := ret + 1;
      m := TruncDiv(m, 10);
    }
  }

  /** The loop stores from the last digit on; for a negative number each remainder is negative
      and is multiplied by (size_t)-1. */
  method Itos(n: int32) returns (ret: string)
    requires n > INT_MIN
    ensures ret == Decimal(n)
  {
    hide Stores, TruncDiv, TruncMod;
    var m: int := n;
    var numlen := FtNumlen(n);
    ret := seq(numlen, _ => '\0');
    var sign := Wrap64(1);
    if m == 0 {
      ret := ret[0 := '0'];
    }
    if m < 0 {
      sign := Wrap64(-1);
      ret := ret[0 := '-'];
    }
    if n != 0 { NothingStored(n, ret); }
    while m != 0
      invariant n == 0 ==> m == 0 && ret == "0"
      invariant n != 0 ==> Stores(n, m, ret, numlen) && sign == if n < 0 then TWO_64 - 1 else 1
      decreases Abs(m)
    {
      StoreDigit(n, m, ret, numlen);
      DigitStored(m, sign);
      numlen := numlen - 1;
      ret := ret[numlen := LowByte(Wrap64(Wrap64(TruncMod(m, 10)) * sign) + '0' as int)];
      m := TruncDiv(m, 10);
    }
    if n != 0 { AllStored(n, ret, numlen); }
  }

  lemma NothingStored(n: int, ret: string)
    requires n != 0 && |ret| == |Decimal(n)| && (n < 0 ==> ret[0] == '-')
    ensures Stores(n, n, ret, |ret|)
  {
    assert DigitsOf(Abs(n)) + [] == DigitsOf(Abs(n));
  }

  lemma AllStored(n: int, ret: string, pos: nat)
    requires n != 0 && Stores(n, 0, ret, pos)
    ensures ret == Decimal(n)
  {
    assert "" + ret[pos..] == ret[pos..];
    assert ret == ret[..pos] + ret[pos..];
    if n < 0 { assert ret[..1] == "-"; }
  }

  /** `ret` holds the sign and, from `pos` on, the digits of n that m no longer has. */
  ghost predicate Stores(n: int, m: int, ret: string, pos: nat) {
    var start := if n < 0 then 1 else 0;
    && start <= pos <= |ret|
    && (if n < 0 then m <= 0 && ret[0] == '-' else m >= 0)
    && pos - start == (if m == 0 then 0 else |DigitsOf(Abs(m))|)
    && DigitsOf(Abs(n)) == (if m == 0 then "" else DigitsOf(Abs(m))) + ret[pos..]
  }

  lemma StoreDigit(n: int, m: int, ret: string, pos: nat)
    requires n != 0 && m != 0 && Stores(n, m, ret, pos)
    ensures 0 < pos <= |ret| && (m < 0 <==> n < 0) && Abs(TruncDiv(m, 10)) == Abs(m) / 10
    ensures Stores(n, TruncDiv(m, 10), ret[pos - 1 := DigitChar(Abs(m) % 10)], pos - 1)
  {
    var a, c := Abs(m), DigitChar(Abs(m) % 10);
    var new' := ret[pos - 1 := c];
    assert new'[pos - 1..] == [c] + ret[pos..];
    var front := if a < 10 then "" else DigitsOf(a / 10);
    assert DigitsOf(a) == front + [c];
    assert front + [c] + ret[pos..] == front + ([c] + ret[pos..]);
  }

  lemma DigitStored(m: int, sign: int)
    requires m != 0 && sign == if m < 0 then TWO_64 - 1 else 1
    ensures LowByte(Wrap64(Wrap64(TruncMod(m, 10)) * sign) + '0' as int) == DigitChar(Abs(m) % 10)
  {
    var d := Abs(m) % 10;
    if m < 0 {
      assert TruncMod(m, 10) == -d;
      if d != 0 {
        assert Wrap64(-d) == TWO_64 - d;
        assert (TWO_64 - d) * (TWO_64 - 1) == d + TWO_64 * (TWO_64 - 1 - d);
        WrapShift(d, TWO_64 - 1 - d);
      }
    } else {
      assert TruncMod(m, 10) == d;
    }
  }

  /** What stoi means: optional white space, an optional sign and digits, modulo 2^64. */
  function StoiValue(s: string): nat {
    var t := SkipWhite(s);
    var u := if Signed(t) then t[1..] else t;
    var magnitude: int := Digits(u, 10, 0);
    Wrap64(if t != [] && t[0] == '-' then -magnitude else magnitude)
  }

  method Stoi(str: string) returns (value: nat)
    ensures value == StoiValue(str)
  {
    hide IsSpace, SkipWhite, Digits, Wrap64;
    var i := 0;
    assert str[0..] == str;
    while IsSpace(CharAt(str, i))
      invariant i <= |str| && SkipWhite(str[i..]) == SkipWhite(str)
      decreases |str| - i
    {
      SkipWhiteStep(str, i);
      i := i + 1;
    }
    SkipWhiteStep(str, i);
    ghost var t := str[i..];
    var sign := 1;
    if CharAt(str, i) == '+' || CharAt(str, i) == '-' {
      if CharAt(str, i) == '-' { sign := -1; }
      i := i + 1;
      assert str[i..] == t[1..];
    }
    ghost var u := str[i..];
    assert u == if Signed(t) then t[1..] else t;
    var result := 0;
    while '0' <= CharAt(str, i) <= '9'
      invariant i <= |str| && 0 <= result < TWO_64
      invariant Wrap64(Digits(str[i..], 10, result)) == Wrap64(Digits(u, 10, 0))
      decreases |str| - i
    {
      DigitsStep(str, i, result);
      result := Wrap64(result * 10 + CharAt(str, i) as int - '0' as int);
      i := i + 1;
    }
    DigitsStep(str, i, result);
    MinusWrap(Digits(u, 10, 0));
    value := Wrap64(result * Wrap64(sign));
  }

  lemma SkipWhiteStep(s: string, i: nat)
    requires i <= |s|
    ensures IsSpace(CharAt(s, i)) ==> i < |s| && SkipWhite(s[i..]) == SkipWhite(s[i + 1..])
    ensures !IsSpace(CharAt(s, i)) ==> SkipWhite(s[i..]) == s[i..]
  {
    if i < |s| { assert s[i..][1..] == s[i + 1..]; }
  }

  lemma DigitsStep(s: string, i: nat, acc: nat)
    requires i <= |s|
    ensures '0' <= CharAt(s, i) <= '9' ==>
      && i < |s|
      && Wrap64(Digits(s[i..], 10, acc))
           == Wrap64(Digits(s[i + 1..], 10, Wrap64(acc * 10 + CharAt(s, i) as int - '0' as int)))
    ensures !('0' <= CharAt(s, i) <= '9') ==> Digits(s[i..], 10, acc) == acc
  {
    if i < |s| {
      assert s[i..][1..] == s[i + 1..];
      if '0' <= s[i] <= '9' {
        DigitsWrap(s[i + 1..], acc * 10 + CharAt(s, i) as int - '0' as int);
      }
    }
  }

  lemma {:induction false} DigitsWrap(s: string, acc: nat)
    ensures Wrap64(Digits(s, 10, acc)) == Wrap64(Digits(s, 10, Wrap64(acc)))
  {
    if s == [] || DigitValue(s[0]) >= 10 {
    } else {
      var d := DigitValue(s[0]);
      var x, y := acc * 10 + d, Wrap64(acc) * 10 + d;
      assert Digits(s, 10, acc) == Digits(s[1..], 10, x);
      assert Digits(s, 10, Wrap64(acc)) == Digits(s[1..], 10, y);
      DigitsWrap(s[1..], x);
      DigitsWrap(s[1..], y);
      WrapStep(acc, d);
    }
  }

  lemma WrapShift(x: int, k: int)
    ensures Wrap64(x + TWO_64 * k) == Wrap64(x)
  {
  }

  lemma WrapStep(acc: nat, d: nat)
    ensures Wrap64(acc * 10 + d) == Wrap64(Wrap64(acc) * 10 + d)
  {
    var r, q := Wrap64(acc), acc / TWO_64;
    assert acc == r + TWO_64 * q;
    assert acc * 10 + d == r * 10 + d + TWO_64 * (10 * q);
    WrapShift(r * 10 + d, 10 * q);
  }

  lemma MinusWrap(x: int)
    requires x >= 0
    ensures Wrap64(Wrap64(x) * Wrap64(-1)) == Wrap64(-x)
  {
    var r := Wrap64(x);
    assert r * (TWO_64 - 1) == -r + TWO_64 * r;
    WrapShift(-r, r);
    WrapShift(-r, -(x / TWO_64));
  }

  // ------------------------------------------------------------- round trip

  lemma {:induction false} DigitsOfValue(n: nat, rest: string, acc: nat)
    ensures Digits(DigitsOf(n) + rest, 10, acc) == Digits(rest, 10, acc * Power10(n) + n)
  {
    if n < 10 {
      assert (DigitsOf(n) + rest)[1..] == rest;
    } else {
      var last := [DigitChar(n % 10)];
      assert DigitsOf(n) + rest == DigitsOf(n / 10) + (last + rest);
      DigitsOfValue(n / 10, last + rest, acc);
      assert (last + rest)[1..] == rest;
      ShiftDigit(acc, Power10(n / 10), n / 10, n % 10);
    }
  }

  lemma ShiftDigit(acc: nat, p: nat, high: nat, low: nat)
    ensures (acc * p + high) * 10 + low == acc * (p * 10) + (high * 10 + low)
  {
    assert acc * (p * 10) == acc * p * 10;
  }

  /** 10 to the number of digits of n. */
  function Power10(n: nat): nat {
    if n < 10 then 10 else Power10(n / 10) * 10
  }

  /** Printing an int and reading it back gives it modulo 2^64. */
  lemma DecimalRoundTrip(n: int)
    ensures StoiValue(Decimal(n)) == Wrap64(n)
  {
    var s := DigitsOf(Abs(n));
    FirstIsDigit(Abs(n));
    assert s + "" == s;
    DigitsOfValue(Abs(n), "", 0);
    if n < 0 {
      assert Decimal(n)[1..] == s;
    }
  }

  lemma {:induction false} FirstIsDigit(n: nat)
    ensures !IsSpace(DigitsOf(n)[0]) && !Signed(DigitsOf(n))
  {
    if n >= 10 { FirstIsDigit(n / 10); }
  }
}
