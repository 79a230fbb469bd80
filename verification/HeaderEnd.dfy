/** Where parseHeaders sees the end of the header section, told from the positions in the buffer. */
module HeaderEnds {
  import opened Text
  import opened RequestSpec

  /** The beginning of the buffer, and what stands behind a CRLF. */
  predicate LineStart(s: string, i: nat) {
    i == 0 || (i >= 2 && IsCrlf(s, i - 2))
  }

  predicate BlankAt(s: string, i: nat) {
    LineStart(s, i) && IsCrlf(s, i)
  }

  /** A complete line that is not empty and no header line. */
  predicate BadLineAt(s: string, i: nat) {
    LineStart(s, i) && i <= |s| && i < NextCrlf(s, i) < |s| && !IsHeaderLine(s[i..NextCrlf(s, i)])
  }

  predicate EndsAt(s: string, i: nat) {
    BlankAt(s, i) && forall j: nat :: j < i ==> !BlankAt(s, j) && !BadLineAt(s, j)
  }

  predicate FailsAt(s: string, i: nat) {
    BadLineAt(s, i) && forall j: nat :: j < i ==> !BlankAt(s, j) && !BadLineAt(s, j)
  }

  /** The line that begins at `i` has not come to its end. */
  predicate OpenAt(s: string, i: nat) {
    i <= |s| && LineStart(s, i) && NextCrlf(s, i) == |s|
  }

  lemma StartBehindLine(s: string, n: nat, i: nat)
    requires 2 <= n <= |s| && IsCrlf(s, n - 2)
    ensures LineStart(s[n..], i) == LineStart(s, i + n) && IsCrlf(s[n..], i) == IsCrlf(s, i + n)
  {
  }

  lemma LineEndBehindLine(s: string, n: nat, i: nat)
    requires n <= |s| && i <= |s| - n
    ensures NextCrlf(s, i + n) == NextCrlf(s[n..], i) + n
  {
    var t, e := s[n..], NextCrlf(s[n..], i);
    assert forall j: nat :: IsCrlf(t, j) == IsCrlf(s, j + n);
    forall j | i + n <= j < e + n ensures !IsCrlf(s, j) { assert !IsCrlf(t, j - n); }
    NextCrlfIs(s, i + n, e + n);
  }

  /** Positions behind a line, and in the buffer that begins behind it. */
  lemma BehindLine(s: string, i: nat)
    requires 0 < NextCrlf(s, 0) < |s|
    ensures
      var n := NextCrlf(s, 0) + 2;
      && BlankAt(s[n..], i) == BlankAt(s, i + n)
      && BadLineAt(s[n..], i) == BadLineAt(s, i + n)
      && OpenAt(s[n..], i) == OpenAt(s, i + n)
  {
    hide NextCrlf, IsHeaderLine, IsCrlf, LineStart;
    var n := NextCrlf(s, 0) + 2;
    InBuffer(s);
    var t := s[n..];
    StartBehindLine(s, n, i);
    if i <= |t| {
      LineEndBehindLine(s, n, i);
      assert t[i..NextCrlf(t, i)] == s[i + n..NextCrlf(t, i) + n];
    }
  }

  lemma InBuffer(s: string)
    requires NextCrlf(s, 0) < |s|
    ensures NextCrlf(s, 0) + 2 <= |s|
  {
  }

  lemma InsideLine(s: string, i: nat)
    requires 0 < NextCrlf(s, 0) < |s| && i < NextCrlf(s, 0) + 2
    ensures !BlankAt(s, i) && (BadLineAt(s, i) ==> i == 0)
  {
    var k := NextCrlf(s, 0);
    if i >= 2 { assert !IsCrlf(s, i - 2); }
    assert !IsCrlf(s, 0);
  }

  /** Verdicts on the buffer behind a good line are verdicts on the whole. */
  lemma VerdictBehindLine(s: string, i: nat)
    requires 0 < NextCrlf(s, 0) < |s| && !BadLineAt(s, 0)
    ensures
      var n := NextCrlf(s, 0) + 2;
      && EndsAt(s[n..], i) == EndsAt(s, i + n)
      && FailsAt(s[n..], i) == FailsAt(s, i + n)
  {
    hide BlankAt, BadLineAt, NextCrlf;
    var n := NextCrlf(s, 0) + 2;
    forall j: nat | j < n ensures !BlankAt(s, j) && !BadLineAt(s, j) { InsideLine(s, j); }
    forall j: nat ensures BlankAt(s[n..], j) == BlankAt(s, j + n) && BadLineAt(s[n..], j) == BadLineAt(s, j + n) {
      BehindLine(s, j);
    }
    if EndsAt(s[n..], i) || FailsAt(s[n..], i) {
      forall j: nat | j < i + n ensures !BlankAt(s, j) && !BadLineAt(s, j) {
        if j >= n { assert !BlankAt(s[n..], j - n) && !BadLineAt(s[n..], j - n); }
      }
    }
  }

  ghost predicate Undecided(s: string) {
    forall j: nat :: !BlankAt(s, j) && !BadLineAt(s, j)
  }

  /** What parseHeaders says of a buffer, with a position for every verdict. */
  ghost predicate HeadersSay(s: string, h: Progress, i: nat) {
    match h.phase
    case PreBody => EndsAt(s, i) && i + 2 <= |s| && h.m.buf == s[i + 2..] && h.m.rpos == 0
    case BadRequest => FailsAt(s, i)
    case Headers => OpenAt(s, i) && Undecided(s) && h.m.buf == s[i..] && h.m.rpos == 0
    case _ => false
  }

  lemma {:induction false} HeadersAt(m: Message) returns (i: nat)
    requires m.rpos == 0
    ensures HeadersSay(m.buf, HeaderLines(m), i)
    decreases |m.buf|
  {
    hide IsHeaderLine, AddHeader, HeaderLines;
    HeaderRound(m);
    var s, k := m.buf, NextCrlf(m.buf, 0);
    assert s[0..k] == s[..k] && s[0..] == s;
    if k == |s| { NothingComplete(s); }
    if k == |s| || k == 0 || !IsHeaderLine(s[..k]) { return 0; }
    i := HeadersAt(m.(headers := AddHeader(m.headers, s[..k]), buf := s[k + 2..]));
    SayBehindLine(s, k + 2, s[k + 2..], HeaderLines(m), i);
    i := i + k + 2;
  }

  lemma SayBehindLine(s: string, n: nat, t: string, h: Progress, i: nat)
    requires 0 < NextCrlf(s, 0) < |s| && !BadLineAt(s, 0)
    requires n == NextCrlf(s, 0) + 2 && t == s[n..] && HeadersSay(t, h, i)
    ensures HeadersSay(s, h, i + n)
  {
    hide NextCrlf, BlankAt, BadLineAt, EndsAt, FailsAt, OpenAt, Undecided;
    VerdictBehindLine(s, i);
    BehindLine(s, i);
    if h.phase == PreBody {
      BlankInside(t, i);
      SliceTwice(s, n, i + 2);
    } else if h.phase == Headers {
      OpenInside(t, i);
      SliceTwice(s, n, i);
      UndecidedBehindLine(s);
    }
  }

  lemma SliceTwice(s: string, n: nat, i: nat)
    requires n + i <= |s|
    ensures s[n..][i..] == s[i + n..]
  {
  }

  lemma BlankInside(s: string, i: nat)
    requires EndsAt(s, i)
    ensures i + 2 <= |s|
  {
  }

  lemma OpenInside(s: string, i: nat)
    requires OpenAt(s, i)
    ensures i <= |s|
  {
  }

  lemma UndecidedBehindLine(s: string)
    requires 0 < NextCrlf(s, 0) < |s| && !BadLineAt(s, 0) && Undecided(s[NextCrlf(s, 0) + 2..])
    ensures Undecided(s)
  {
    hide BlankAt, BadLineAt;
    var n := NextCrlf(s, 0) + 2;
    forall j: nat ensures !BlankAt(s, j) && !BadLineAt(s, j) {
      if j < n { InsideLine(s, j); } else { BehindLine(s, j - n); }
    }
  }

  lemma NothingComplete(s: string)
    requires NextCrlf(s, 0) == |s|
    ensures Undecided(s)
  {
    forall j: nat ensures !BlankAt(s, j) && !BadLineAt(s, j) {
      assert forall l :: 0 <= l < |s| ==> !IsCrlf(s, l);
      if j >= 2 && j - 2 < |s| { assert !IsCrlf(s, j - 2); }
      if j < |s| { assert !IsCrlf(s, j); }
      assert NextCrlf(s, 0) == |s|;
    }
  }

  /** parseHeaders says PREBODY exactly when a blank line stands in the buffer with only good
      lines before it, and 400 exactly when a bad line does with no blank line before it;
      otherwise it waits for more with the cursor back at 0. */
  lemma HeaderEndExact(m: Message)
    requires m.rpos == 0
    ensures
      var h, s := HeaderLines(m), m.buf;
      && (h.phase == PreBody <==> exists i: nat :: EndsAt(s, i))
      && (h.phase == BadRequest <==> exists i: nat :: FailsAt(s, i))
      && (h.phase == PreBody || h.phase == BadRequest || h.phase == Headers)
      && (h.phase != BadRequest ==> h.m.rpos == 0)
      && (h.phase == PreBody ==> exists i: nat :: EndsAt(s, i) && i + 2 <= |s| && h.m.buf == s[i + 2..])
      && (h.phase == Headers ==> Undecided(s) && exists i: nat :: OpenAt(s, i) && h.m.buf == s[i..])
  {
    hide BlankAt, BadLineAt, NextCrlf, HeaderLines, OpenAt;
    var i := HeadersAt(m);
    var h, s := HeaderLines(m), m.buf;
    forall j: nat | EndsAt(s, j) ensures h.phase == PreBody {
      if h.phase == BadRequest { assert i < j || j < i || (BlankAt(s, i) && BadLineAt(s, i)); BlankNotBad(s, i); }
    }
    forall j: nat | FailsAt(s, j) ensures h.phase == BadRequest {
      if h.phase == PreBody { assert i < j || j < i || (BlankAt(s, i) && BadLineAt(s, i)); BlankNotBad(s, i); }
    }
  }

  lemma BlankNotBad(s: string, i: nat)
    ensures !(BlankAt(s, i) && BadLineAt(s, i))
  {
  }
}
