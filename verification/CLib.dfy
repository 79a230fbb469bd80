/** The C library calls the parser makes, with their machine arithmetic. */
module CLib {

  const INT_MIN := -0x8000_0000
  const INT_MAX := 0x7FFF_FFFF
  const LONG_MIN := -0x8000_0000_0000_0000
  const LONG_MAX := 0x7FFF_FFFF_FFFF_FFFF
  const TWO_32 := 0x1_0000_0000
  const TWO_64 := 0x1_0000_0000_0000_0000

  type uint32 = x: int | 0 <= x < 0x1_0000_0000

  /** Conversion to unsigned int. */
  function Wrap32(x: int): (r: uint32)
    ensures 0 <= x < TWO_32 ==> r == x
    ensures -TWO_32 <= x < 0 ==> r == x + TWO_32
    ensures (x - r) % 4294967296 == 0
  {
    x % TWO_32
  }

  /** static_cast<int> of a long: the low 32 bits, read as two's complement. */
  function ToInt32(x: int): (r: int)
    ensures INT_MIN <= r <= INT_MAX
    ensures INT_MIN <= x <= INT_MAX ==> r == x
    ensures (x - r) % 4294967296 == 0
  {
    (x + 0x8000_0000) % TWO_32 - 0x8000_0000
  }

  /** What a C string function sees: the bytes before the first NUL. */
  function CString(s: string): (r: string)
    ensures r <= s && '\0' !in r
    ensures r == s || s[|r|] == '\0'
  {
    if s == [] || s[0] == '\0' then [] else [s[0]] + CString(s[1..])
  }

  predicate IsSpace(c: char) { c == ' ' || '\t' <= c <= '\r' }

  function SkipWhite(s: string): (r: string)
    ensures |r| <= |s|
  {
    if s != [] && IsSpace(s[0]) then SkipWhite(s[1..]) else s
  }

  /** The value of a digit, at least `base` when `c` is no digit of that base. */
  function DigitValue(c: char): (v: nat) {
    if '0' <= c <= '9' then c as int - '0' as int
    else if 'a' <= c <= 'z' then c as int - 'a' as int + 10
    else if 'A' <= c <= 'Z' then c as int - 'A' as int + 10
    else 99
  }

  /** The number written by the longest prefix of digits, added to `acc`. */
  function Digits(s: string, base: nat, acc: nat): nat
  {
    if s == [] || DigitValue(s[0]) >= base then acc
    else Digits(s[1..], base, acc * base + DigitValue(s[0]))
  }

  function Saturate(x: int): int {
    if x > LONG_MAX then LONG_MAX else if x < LONG_MIN then LONG_MIN else x
  }

  predicate HasHexPrefix(s: string) {
    |s| >= 3 && s[0] == '0' && (s[1] == 'x' || s[1] == 'X') && DigitValue(s[2]) < 16
  }

  predicate Signed(s: string) { s != [] && (s[0] == '-' || s[0] == '+') }

  /** strtol(s, NULL, base) for the bases 0, 10 and 16. */
  function Strtol(s: string, base: nat): int {
    var t := SkipWhite(s);
    var u := if Signed(t) then t[1..] else t;
    var hex := (base == 0 || base == 16) && HasHexPrefix(u);
    var b := if hex then 16 else if base != 0 then base else if u != [] && u[0] == '0' then 8 else 10;
    var magnitude: int := Digits(if hex then u[2..] else u, b, 0);
    Saturate(if t != [] && t[0] == '-' then -magnitude else magnitude)
  }

  /** Base 0 on a line that begins with "0x" reads what base 16 reads. */
  lemma BaseZeroIsHex(s: string)
    requires |s| >= 2 && s[0] == '0' && s[1] == 'x'
    ensures Strtol(s, 0) == Strtol(s, 16)
  {
    assert SkipWhite(s) == s;
    if !HasHexPrefix(s) {
      assert DigitValue(s[1..][0]) >= 16;
      assert Digits(s, 8, 0) == Digits(s[1..], 8, 0) == 0;
      assert Digits(s, 16, 0) == Digits(s[1..], 16, 0) == 0;
    }
  }

  /** atoi reads 0 from a string without digits. */
  lemma NoDigitsIsZero(s: string)
    requires forall i :: 0 <= i < |s| ==> !('0' <= s[i] <= '9')
    ensures Strtol(s, 10) == 0
  {
    SkipWhiteSuffix(s);
    var t := SkipWhite(s);
    var u := if Signed(t) then t[1..] else t;
    assert u != [] ==> u[0] in s;
    assert u == [] || DigitValue(u[0]) >= 10;
  }

  lemma {:induction false} SkipWhiteSuffix(s: string)
    ensures SkipWhite(s) == s[|s| - |SkipWhite(s)|..]
  {
    if s != [] && IsSpace(s[0]) { SkipWhiteSuffix(s[1..]); }
  }
}
