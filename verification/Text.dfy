/** Scanning of byte strings.  A byte is a `char`: the program only ever compares bytes
    with ASCII constants, so every statement below holds of the 256 byte values. */
module Text {

  const CRLF: string := "\r\n"

  predicate IsCrlf(s: string, i: nat) {
    i + 1 < |s| && s[i] == '\r' && s[i + 1] == '\n'
  }

  /** The first index at or after `i` where a CRLF begins, or |s| when there is none. */
  function NextCrlf(s: string, i: nat): (k: nat)
    requires i <= |s|
    ensures i <= k <= |s|
    ensures k < |s| ==> IsCrlf(s, k)
    ensures forall j :: i <= j < k ==> !IsCrlf(s, j)
    decreases |s| - i
  {
    if i == |s| || IsCrlf(s, i) then i else NextCrlf(s, i + 1)
  }

  /** The first index at or after `i` holding `c`, or |s| when there is none. */
  function IndexOf(s: string, c: char, i: nat := 0): (k: nat)
    requires i <= |s|
    ensures i <= k <= |s|
    ensures k < |s| ==> s[k] == c
    ensures forall j :: i <= j < k ==> s[j] != c
    decreases |s| - i
  {
    if i == |s| || s[i] == c then i else IndexOf(s, c, i + 1)
  }

  /** `s` without its leading blanks (only the space character counts). */
  function DropSpaces(s: string): (r: string)
    ensures |r| <= |s| && r == s[|s| - |r|..]
    ensures r == [] || r[0] != ' '
  {
    if s != [] && s[0] == ' ' then DropSpaces(s[1..]) else s
  }

  /** s[i] of a C++ string, where the position behind the last character holds 0; reading further
      is undefined. */
  function CharAt(s: string, i: nat): char
    requires i <= |s|
  {
    if i < |s| then s[i] else '\0'
  }

  predicate IsUpper(c: char) { 'A' <= c <= 'Z' }

  predicate IsDigit(c: char) { '0' <= c <= '9' }

  predicate AllUpper(s: string) { forall i :: 0 <= i < |s| ==> IsUpper(s[i]) }

  function ToLower(c: char): char {
    if IsUpper(c) then (c as int + 32) as char else c
  }

  function Lower(s: string): (r: string)
    ensures |r| == |s|
    ensures forall i :: 0 <= i < |s| ==> r[i] == ToLower(s[i])
  {
    if s == [] then [] else [ToLower(s[0])] + Lower(s[1..])
  }

  function Flatten(parts: seq<string>): string {
    if parts == [] then [] else parts[0] + Flatten(parts[1..])
  }

  // ---------------------------------------------------------------- lemmas

  lemma LetterAt(k: nat)
    requires k < 26
    ensures "ABCDEFGHIJKLMNOPQRSTUVWXYZ"[k] == (k + 65) as char && "abcdefghijklmnopqrstuvwxyz"[k] == (k + 97) as char
  {
    if k < 13 { if k < 6 {} else {} } else { if k < 19 {} else {} }
  }

  /** isupper and tolower on the letters of the alphabet. */
  lemma UpperIs(c: char)
    ensures IsUpper(c) <==> c in "ABCDEFGHIJKLMNOPQRSTUVWXYZ"
  {
    var s := "ABCDEFGHIJKLMNOPQRSTUVWXYZ";
    forall k | 0 <= k < 26 ensures s[k] == (k + 65) as char { LetterAt(k); }
    if IsUpper(c) { assert s[c as int - 65] == c; }
  }

  lemma LowerIs(k: nat)
    requires k < 26
    ensures ToLower("ABCDEFGHIJKLMNOPQRSTUVWXYZ"[k]) == "abcdefghijklmnopqrstuvwxyz"[k]
  {
    LetterAt(k);
  }

  lemma LowerKeeps(c: char)
    requires c !in "ABCDEFGHIJKLMNOPQRSTUVWXYZ"
    ensures ToLower(c) == c
  {
    UpperIs(c);
  }

  lemma DigitIs(c: char)
    ensures IsDigit(c) <==> c in "0123456789"
  {
    var s := "0123456789";
    assert s[0] == '0' && s[1] == '1' && s[2] == '2' && s[3] == '3' && s[4] == '4';
    assert s[5] == '5' && s[6] == '6' && s[7] == '7' && s[8] == '8' && s[9] == '9';
    if IsDigit(c) { assert s[c as int - 48] == c; }
  }

  lemma NextCrlfIs(s: string, i: nat, k: nat)
    requires i <= k <= |s|
    requires k < |s| ==> IsCrlf(s, k)
    requires forall j :: i <= j < k ==> !IsCrlf(s, j)
    ensures NextCrlf(s, i) == k
  {
    var n := NextCrlf(s, i);
    assert n == |s| || IsCrlf(s, n);
    assert k == |s| || IsCrlf(s, k);
  }

  /** Bytes that arrive later do not move a line end that is already there. */
  lemma LineEndStays(s: string, b: string, i: nat)
    requires i <= |s| && NextCrlf(s, i) < |s|
    ensures NextCrlf(s + b, i) == NextCrlf(s, i)
  {
    var k := NextCrlf(s, i);
    assert forall j :: i <= j <= k ==> IsCrlf(s + b, j) == IsCrlf(s, j);
    NextCrlfIs(s + b, i, k);
  }

  predicate HasCrlf(s: string) { exists j: nat :: j + 1 < |s| && IsCrlf(s, j) }

  /** The line end of `line + CRLF + rest`, for a line without CRLF. */
  lemma LineEndOfLine(line: string, rest: string)
    requires !HasCrlf(line)
    ensures NextCrlf(line + CRLF + rest, 0) == |line|
  {
    var s := line + CRLF + rest;
    forall j | 0 <= j < |line| ensures !IsCrlf(s, j) {
      assert s[j] == line[j] && s[j + 1] == if j + 1 < |line| then line[j + 1] else '\r';
      assert !IsCrlf(line, j);
    }
    NextCrlfIs(s, 0, |line|);
  }

  /** No line end in a proper prefix of `line + CRLF`. */
  lemma NoLineEndYet(line: string, t: string)
    requires !HasCrlf(line) && t <= line + CRLF && |t| < |line| + 2
    ensures NextCrlf(t, 0) == |t|
  {
    forall j | 0 <= j < |t| ensures !IsCrlf(t, j) {
      assert t[j] == (line + CRLF)[j];
      if j + 1 < |t| { assert t[j + 1] == (line + CRLF)[j + 1]; }
      assert j >= |line| || !IsCrlf(line, j);
    }
    NextCrlfIs(t, 0, |t|);
  }

  lemma IndexOfIs(s: string, c: char, i: nat, k: nat)
    requires i <= k <= |s|
    requires k < |s| ==> s[k] == c
    requires forall j :: i <= j < k ==> s[j] != c
    ensures IndexOf(s, c, i) == k
  {
    var n := IndexOf(s, c, i);
    assert n == |s| || s[n] == c;
    assert k == |s| || s[k] == c;
  }

  lemma DropSpacesStep(s: string, i: nat)
    requires i <= |s|
    ensures i < |s| && s[i] == ' ' ==> DropSpaces(s[i..]) == DropSpaces(s[i + 1..])
    ensures i == |s| || s[i] != ' ' ==> DropSpaces(s[i..]) == s[i..]
  {
    if i < |s| && s[i] == ' ' { assert s[i..][1..] == s[i + 1..]; }
  }

  lemma SliceSnoc(s: string, i: nat, k: nat)
    requires i <= k < |s|
    ensures s[i..k] + [s[k]] == s[i..k + 1]
  {
  }

  /** A prefix of `a + b` is a prefix of `a`, or `a` and a prefix of `b`. */
  lemma PrefixSplit(t: string, a: string, b: string)
    requires t <= a + b
    ensures |t| <= |a| ==> t <= a
    ensures |t| >= |a| ==> t == a + t[|a|..] && t[|a|..] <= b
  {
    assert t == (a + b)[..|t|];
    if |t| >= |a| {
      assert t[..|a|] == (a + b)[..|a|] == a;
      assert t[|a|..] == (a + b)[|a|..|t|] == b[..|t| - |a|];
    }
  }

  lemma {:induction false} FlattenAppend(a: seq<string>, b: seq<string>)
    ensures Flatten(a + b) == Flatten(a) + Flatten(b)
  {
    if a == [] {
      assert a + b == b;
    } else {
      assert (a + b)[1..] == a[1..] + b;
      FlattenAppend(a[1..], b);
    }
  }
}
