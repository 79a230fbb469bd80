/** Request lines and header sections on bytes: which streams have a complete head, and what the
    parser makes of it. */
module Heads {
  import opened Text
  import opened Fields
  import opened RequestSpec
  import opened StartLines

  predicate IsLine(line: string) { !HasCrlf(line) && IsHeaderLine(line) }

  predicate AreLines(lines: seq<string>) { forall i :: 0 <= i < |lines| ==> IsLine(lines[i]) }

  function PrintLines(lines: seq<string>): string {
    if lines == [] then "" else lines[0] + CRLF + PrintLines(lines[1..])
  }

  /** The header map after these lines, in their order. */
  function ReadLines(headers: FieldMap, lines: seq<string>): FieldMap
    decreases |lines|
  {
    if lines == [] then headers else ReadLines(AddHeader(headers, lines[0]), lines[1..])
  }

  predicate IsHead(name: string, target: string, lines: seq<string>) {
    IsName(name) && IsTarget(target) && !HasCrlf(target) && AreLines(lines)
  }

  function PrintHead(name: string, target: string, lines: seq<string>): string {
    RequestLine(name, target) + CRLF + (PrintLines(lines) + CRLF)
  }

  // --------------------------------------------------------- header sections

  lemma OneLine(m: Message, line: string, tail: string)
    requires m.rpos == 0 && IsLine(line) && m.buf == line + CRLF + tail
    ensures HeaderLines(m) == HeaderLines(m.(headers := AddHeader(m.headers, line), buf := tail))
  {
    hide HeaderLines, AddHeader, IsHeaderLine;
    LineEndOfLine(line, tail);
    assert m.buf[..|line|] == line && m.buf[|line| + 2..] == tail;
    NotEmpty(line);
    HeaderRound(m);
  }

  lemma NotEmpty(line: string)
    requires IsHeaderLine(line)
    ensures line != ""
  {
  }

  /** Header lines and a blank line are read as the lines say. */
  lemma {:induction false} LinesRead(m: Message, lines: seq<string>, rest: string)
    requires m.rpos == 0 && AreLines(lines) && m.buf == PrintLines(lines) + (CRLF + rest)
    ensures HeaderLines(m) == Progress(PreBody, m.(headers := ReadLines(m.headers, lines), buf := rest))
    decreases |lines|
  {
    hide HeaderLines, AddHeader, IsLine;
    if lines == [] {
      assert m.buf == "" + CRLF + rest;
      LineEndOfLine("", rest);
      assert m.buf[2..] == rest;
      HeaderRound(m);
    } else {
      var tail := PrintLines(lines[1..]) + (CRLF + rest);
      assert m.buf == lines[0] + CRLF + tail;
      OneLine(m, lines[0], tail);
      LinesRead(m.(headers := AddHeader(m.headers, lines[0]), buf := tail), lines[1..], rest);
    }
  }

  /** A header section that was read to its end consists of header lines and a blank line. */
  lemma {:induction false} LinesFound(m: Message) returns (lines: seq<string>)
    requires m.rpos == 0 && HeaderLines(m).phase == PreBody
    ensures AreLines(lines) && m.buf == PrintLines(lines) + (CRLF + HeaderLines(m).m.buf)
    decreases |m.buf|
  {
    hide HeaderLines, AddHeader, IsHeaderLine;
    HeaderRound(m);
    var s, k := m.buf, NextCrlf(m.buf, 0);
    if k == 0 {
      lines := [];
      assert s == CRLF + s[2..];
    } else {
      var line, tail := s[..k], s[k + 2..];
      LineIsLine(s);
      lines := LinesFound(m.(headers := AddHeader(m.headers, line), buf := tail));
      assert s == line + CRLF + tail;
      Together(line, lines, CRLF + HeaderLines(m).m.buf);
      lines := [line] + lines;
    }
  }

  lemma Together(line: string, lines: seq<string>, rest: string)
    ensures PrintLines([line] + lines) + rest == line + CRLF + (PrintLines(lines) + rest)
  {
    assert ([line] + lines)[1..] == lines;
  }

  lemma LineIsLine(s: string)
    ensures !HasCrlf(s[..NextCrlf(s, 0)])
  {
    var k := NextCrlf(s, 0);
    forall j: nat | j + 1 < k ensures !IsCrlf(s[..k], j) {
      assert !IsCrlf(s, j);
    }
  }

  // ------------------------------------------------------------- whole heads

  lemma LineHasNoCrlf(name: string, target: string)
    requires IsName(name) && IsTarget(target)
    ensures HasCrlf(RequestLine(name, target)) <==> HasCrlf(target)
  {
    hide IsName, IsTarget;
    var line, n := RequestLine(name, target), |name| + 1;
    LineChars(name, target);
    forall j: nat | j + 1 < |line| && IsCrlf(line, j) ensures HasCrlf(target) {
      assert n <= j && j + 1 < n + |target|;
      assert IsCrlf(target, j - n);
    }
    forall j: nat | j + 1 < |target| && IsCrlf(target, j) ensures HasCrlf(line) {
      assert IsCrlf(line, n + j);
    }
  }

  /** A request line has CR and LF only where its target has them. */
  lemma LineChars(name: string, target: string)
    requires IsName(name)
    ensures
      var line, n := RequestLine(name, target), |name| + 1;
      && |line| == n + |target| + 9
      && (forall j :: 0 <= j < n || n + |target| <= j < |line| ==> line[j] != '\r' && line[j] != '\n')
      && (forall j :: 0 <= j < |target| ==> line[n + j] == target[j])
  {
    hide IsName;
    NameIsUpper(name);
    var line, n, tail := RequestLine(name, target), |name| + 1, " HTTP/1.1";
    assert forall j :: 0 <= j < |name| ==> line[j] == name[j] && IsUpper(name[j]);
    assert forall j :: 0 <= j < |tail| ==> line[n + |target| + j] == tail[j] && tail[j] != '\r' && tail[j] != '\n';
    forall j | n + |target| <= j < |line| ensures line[j] != '\r' && line[j] != '\n' {
      assert line[j] == tail[j - n - |target|];
    }
  }

  /** A printed head is read as its method, its target and its lines. */
  lemma HeadRead(name: string, target: string, lines: seq<string>, rest: string)
    requires IsHead(name, target, lines)
    ensures
      var h := HeadStage(Fresh(PrintHead(name, target, lines) + rest));
      && h.phase == PreBody && h.verb == MethodId(name) && Stored(target, h.configDir, h.requestUri)
      && h.m == FreshMessage(rest).(headers := ReadLines([], lines))
  {
    hide HeaderLines, MethodId, Stored, RequestSpec.ReadStartLine, IsName, IsTarget, AreLines, HasCrlf, RequestLine;
    var line, tail := RequestLine(name, target), PrintLines(lines) + (CRLF + rest);
    var p := Fresh(PrintHead(name, target, lines) + rest);
    assert p.m.buf == line + CRLF + tail;
    LineHasNoCrlf(name, target);
    LineEndOfLine(line, tail);
    assert p.m.buf[0..|line|] == line && p.m.buf[|line| + 2..] == tail;
    NotEmptyLine(name, target);
    RequestLineAccepted(p.(m := p.m.(rpos := |line| + 2)), name, target);
    LinesRead(LineStage(p).m, lines, rest);
  }

  lemma NotEmptyLine(name: string, target: string)
    ensures RequestLine(name, target) != ""
  {
  }

  /** A stream whose first line was accepted begins with a request line. */
  lemma LineFound(s: string) returns (name: string, target: string)
    requires LineStage(Fresh(s)).phase == Headers
    ensures IsName(name) && IsTarget(target) && !HasCrlf(target)
    ensures s == RequestLine(name, target) + CRLF + LineStage(Fresh(s)).m.buf
    ensures LineStage(Fresh(s)).m == FreshMessage(LineStage(Fresh(s)).m.buf)
  {
    hide RequestSpec.ReadStartLine, IsName, IsTarget, HasCrlf, RequestLine;
    var p, k := Fresh(s), NextCrlf(s, 0);
    var line, q := s[..k], p.(m := p.m.(rpos := k + 2));
    assert s[0..k] == line && LineStage(p) == RequestSpec.ReadStartLine(q, line);
    name, target := AcceptedRequestLine(q, line);
    LineIsLine(s);
    LineHasNoCrlf(name, target);
    RequestLineAccepted(q, name, target);
    assert s == line + CRLF + s[k + 2..];
  }

  lemma LineFirst(s: string)
    requires HeadStage(Fresh(s)).phase == PreBody
    ensures LineStage(Fresh(s)).phase == Headers
  {
    hide HeaderLines;
    var p, k := Fresh(s), NextCrlf(s, 0);
    if 0 < k < |s| { ReadStartLineInv(p.(m := p.m.(rpos := k + 2)), s[0..k]); }
  }

  /** A stream whose head was read to its end begins with a printed head. */
  lemma HeadFound(s: string) returns (name: string, target: string, lines: seq<string>)
    requires HeadStage(Fresh(s)).phase == PreBody
    ensures IsHead(name, target, lines)
    ensures s == PrintHead(name, target, lines) + HeadStage(Fresh(s)).m.buf
  {
    hide HeaderLines, LineStage, IsName, IsTarget, AreLines, HasCrlf, RequestLine;
    LineFirst(s);
    name, target := LineFound(s);
    lines := LinesFound(LineStage(Fresh(s)).m);
    Regroup(RequestLine(name, target), PrintLines(lines), HeadStage(Fresh(s)).m.buf);
  }

  lemma Regroup(line: string, lines: string, rest: string)
    ensures line + CRLF + (lines + (CRLF + rest)) == line + CRLF + (lines + CRLF) + rest
  {
  }
  // ------------------------------------------------------------ header values

  predicate AllSpaces(s: string) { forall i :: 0 <= i < |s| ==> s[i] == ' ' }

  /** The line gives the key this value: a key without colon, a colon, spaces, and the value. */
  ghost predicate Says(line: string, key: string, value: string) {
    && key != "" && ':' !in key && (value == "" || value[0] != ' ')
    && exists spaces :: AllSpaces(spaces) && line == key + ":" + spaces + value
  }

  lemma {:induction false} SpacesDropped(spaces: string, value: string)
    requires AllSpaces(spaces) && (value == "" || value[0] != ' ')
    ensures DropSpaces(spaces + value) == value
    decreases |spaces|
  {
    if spaces == "" {
      assert spaces + value == value;
    } else {
      assert (spaces + value)[1..] == spaces[1..] + value;
      SpacesDropped(spaces[1..], value);
    }
  }

  lemma {:induction false} SpacesInFront(s: string)
    ensures AllSpaces(s[..|s| - |DropSpaces(s)|])
  {
    if s != "" && s[0] == ' ' {
      SpacesInFront(s[1..]);
      assert s[..|s| - |DropSpaces(s)|] == [' '] + s[1..][..|s| - 1 - |DropSpaces(s)|];
    }
  }

  lemma SaidLine(line: string, key: string, value: string)
    requires Says(line, key, value)
    ensures IsHeaderLine(line) && key == line[..IndexOf(line, ':')] && value == DropSpaces(line[IndexOf(line, ':') + 1..])
  {
    hide DropSpaces, AllSpaces;
    var spaces :| AllSpaces(spaces) && line == key + ":" + spaces + value;
    Regrouped(key, spaces, value);
    KeyCut(line, key, spaces + value);
    SpacesDropped(spaces, value);
  }

  lemma Regrouped(key: string, spaces: string, value: string)
    ensures key + ":" + spaces + value == key + ":" + (spaces + value)
  {
  }

  lemma KeyCut(line: string, key: string, tail: string)
    requires line == key + ":" + tail && ':' !in key && key != ""
    ensures IsHeaderLine(line) && IndexOf(line, ':') == |key| && line[..|key|] == key && line[|key| + 1..] == tail
  {
    assert forall j :: 0 <= j < |key| ==> line[j] == key[j];
    IndexOfIs(line, ':', 0, |key|);
  }

  lemma LineSaid(line: string)
    requires IsHeaderLine(line)
    ensures Says(line, line[..IndexOf(line, ':')], DropSpaces(line[IndexOf(line, ':') + 1..]))
  {
    hide Says, AllSpaces;
    InHeaderLine(line);
    var s := line[IndexOf(line, ':') + 1..];
    SpacesInFront(s);
    SpacesThenValue(s);
    KeyInFront(line, s[..|s| - |DropSpaces(s)|], DropSpaces(s));
  }

  lemma SpacesThenValue(s: string)
    ensures s == s[..|s| - |DropSpaces(s)|] + DropSpaces(s)
  {
  }

  lemma KeyInFront(line: string, spaces: string, value: string)
    requires IsHeaderLine(line) && AllSpaces(spaces) && (value == "" || value[0] != ' ')
    requires line[IndexOf(line, ':') + 1..] == spaces + value
    ensures Says(line, line[..IndexOf(line, ':')], value)
  {
    hide AllSpaces;
    var k := IndexOf(line, ':');
    Joined(line, k, spaces, value);
    assert ':' !in line[..k];
  }

  lemma Joined(line: string, k: nat, spaces: string, value: string)
    requires k < |line| && line[k] == ':' && line[k + 1..] == spaces + value
    ensures line == line[..k] + ":" + spaces + value
  {
    assert line == line[..k] + ":" + line[k + 1..];
    assert line[..k] + ":" + (spaces + value) == line[..k] + ":" + spaces + value;
  }

  /** How parseHeaders and addHeader take a line apart. */
  lemma SaysIs(line: string, key: string, value: string)
    ensures Says(line, key, value) <==>
      IsHeaderLine(line) && key == line[..IndexOf(line, ':')] && value == DropSpaces(line[IndexOf(line, ':') + 1..])
  {
    hide Says, DropSpaces;
    if Says(line, key, value) { SaidLine(line, key, value); }
    if IsHeaderLine(line) { LineSaid(line); }
  }

  /** Which lines are header lines: those that give some key a value. */
  lemma HeaderLineShape(line: string)
    ensures IsHeaderLine(line) <==> exists key, value :: Says(line, key, value)
  {
    hide Says, IsHeaderLine, DropSpaces;
    forall key, value ensures Says(line, key, value) ==> IsHeaderLine(line) { SaysIs(line, key, value); }
    if IsHeaderLine(line) { LineSaid(line); }
  }

  /** The first line that gives the key any value gives it this one. */
  ghost predicate Given(lines: seq<string>, key: string, value: string) {
    exists i :: 0 <= i < |lines| && Says(lines[i], key, value) && NotGiven(lines[..i], key)
  }

  ghost predicate Silent(line: string, key: string) { forall value :: !Says(line, key, value) }

  ghost predicate NotGiven(lines: seq<string>, key: string) {
    forall j :: 0 <= j < |lines| ==> Silent(lines[j], key)
  }

  /** The value of a header: under its name, or else under its name in small letters, or nothing. */
  ghost predicate ValueIs(lines: seq<string>, key: string, lower: string, value: string) {
    || Given(lines, key, value)
    || (NotGiven(lines, key) && Given(lines, lower, value))
    || (NotGiven(lines, key) && NotGiven(lines, lower) && value == "")
  }

  /** One line, inserted. */
  lemma OneLineInserted(headers: FieldMap, line: string, key: string)
    requires IsHeaderLine(line) && Sorted(headers)
    ensures Sorted(AddHeader(headers, line))
    ensures Lookup(headers, key).Some? ==> Lookup(AddHeader(headers, line), key) == Lookup(headers, key)
    ensures Lookup(headers, key).None? ==>
      match Lookup(AddHeader(headers, line), key)
      case Some(v) => Says(line, key, v)
      case None => Silent(line, key)
  {
    hide Says, Insert, Sorted, Lookup, IsHeaderLine, DropSpaces;
    InHeaderLine(line);
    var k, v := line[..IndexOf(line, ':')], DropSpaces(line[IndexOf(line, ':') + 1..]);
    LineSaid(line);
    InsertSorted(headers, k, v);
    InsertLookup(headers, k, v, key);
    assert AddHeader(headers, line) == Insert(headers, k, v);
    if k != key { OtherKey(line, k, v, key); }
  }

  /** The map after a section finds what the lines give. */
  lemma {:induction false} LookupOnLines(headers: FieldMap, lines: seq<string>, key: string)
    requires AreLines(lines) && Sorted(headers)
    ensures Sorted(ReadLines(headers, lines))
    ensures Lookup(headers, key).Some? ==> Lookup(ReadLines(headers, lines), key) == Lookup(headers, key)
    ensures Lookup(headers, key).None? ==>
      match Lookup(ReadLines(headers, lines), key)
      case Some(v) => Given(lines, key, v)
      case None => NotGiven(lines, key)
    decreases |lines|
  {
    hide Says, Silent, Sorted, Lookup, IsHeaderLine, HasCrlf, AddHeader, Given, NotGiven;
    if lines == [] {
      NoneGiven(key);
    } else {
      var next := AddHeader(headers, lines[0]);
      OneLineInserted(headers, lines[0], key);
      LookupOnLines(next, lines[1..], key);
      match Lookup(next, key) {
        case Some(v) => if Lookup(headers, key).None? { FirstGiven(lines, key, v); }
        case None => LaterGiven(lines, key);
      }
    }
  }

  lemma NoneGiven(key: string)
    ensures NotGiven([], key)
  {
  }

  lemma FirstGiven(lines: seq<string>, key: string, v: string)
    requires lines != [] && Says(lines[0], key, v)
    ensures Given(lines, key, v)
  {
    hide Says;
    assert lines[..0] == [];
  }

  lemma InHeaderLine(line: string)
    requires IsHeaderLine(line)
    ensures 0 < IndexOf(line, ':') < |line|
  {
  }

  lemma OtherKey(line: string, k: string, v: string, key: string)
    requires Says(line, k, v) && key != k
    ensures Silent(line, key)
  {
    hide Says, IsHeaderLine, DropSpaces;
    SaysIs(line, k, v);
    forall value ensures !Says(line, key, value) { SaysIs(line, key, value); }
  }

  lemma LaterGiven(lines: seq<string>, key: string)
    requires lines != [] && Silent(lines[0], key)
    ensures NotGiven(lines[1..], key) ==> NotGiven(lines, key)
    ensures forall v :: Given(lines[1..], key, v) ==> Given(lines, key, v)
  {
    hide Says, Silent;
    forall v | Given(lines[1..], key, v) ensures Given(lines, key, v) {
      var i :| 0 <= i < |lines[1..]| && Says(lines[1..][i], key, v) && NotGiven(lines[1..][..i], key);
      SilentBefore(lines[1..], i, key);
      var front := lines[..i + 1];
      forall j | 0 <= j < |front| ensures Silent(front[j], key) {
        if j > 0 { assert front[j] == lines[1..][j - 1]; }
      }
      assert Says(lines[i + 1], key, v) && NotGiven(lines[..i + 1], key);
    }
  }

  lemma SilentBefore(lines: seq<string>, i: nat, key: string)
    requires i <= |lines| && NotGiven(lines[..i], key)
    ensures forall l :: 0 <= l < i ==> Silent(lines[l], key)
  {
    hide Silent;
    forall l | 0 <= l < i ensures Silent(lines[l], key) { assert lines[..i][l] == lines[l]; }
  }

  lemma SaidOnce(line: string, key: string, v: string, w: string)
    requires Says(line, key, v)
    ensures !Silent(line, key) && (Says(line, key, w) ==> v == w)
  {
    hide Says, IsHeaderLine, DropSpaces;
    SaysIs(line, key, v);
    SaysIs(line, key, w);
  }

  lemma GivenOnce(lines: seq<string>, key: string, v: string, w: string)
    requires Given(lines, key, v)
    ensures !NotGiven(lines, key) && (Given(lines, key, w) ==> v == w)
  {
    hide Says, Silent;
    var i :| 0 <= i < |lines| && Says(lines[i], key, v) && NotGiven(lines[..i], key);
    SilentBefore(lines, i, key);
    SaidOnce(lines[i], key, v, w);
    if Given(lines, key, w) {
      var j :| 0 <= j < |lines| && Says(lines[j], key, w) && NotGiven(lines[..j], key);
      SilentBefore(lines, j, key);
      SaidOnce(lines[j], key, w, v);
    }
  }

  /** getHeaderValue after a section, on the lines of the section. */
  lemma HeaderValueOnLines(lines: seq<string>, key: string, value: string)
    requires AreLines(lines)
    ensures HeaderValue(ReadLines([], lines), key) == value <==> ValueIs(lines, key, Lower(key), value)
  {
    hide Given, NotGiven, ReadLines, AreLines;
    var v := HeaderValue(ReadLines([], lines), key);
    LookupOnLines([], lines, key);
    LookupOnLines([], lines, Lower(key));
    assert ValueIs(lines, key, Lower(key), v);
    forall k, a, b ensures Given(lines, k, a) && Given(lines, k, b) ==> a == b {
      if Given(lines, k, a) { GivenOnce(lines, k, a, b); }
    }
    forall k, a ensures Given(lines, k, a) ==> !NotGiven(lines, k) {
      if Given(lines, k, a) { GivenOnce(lines, k, a, a); }
    }
  }

  lemma LowerTransferEncoding()
    ensures Lower("Transfer-Encoding") == "transfer-encoding"
  {
    SameLower("Transfer-Encoding", "transfer-encoding");
  }

  lemma LowerContentLength()
    ensures Lower("Content-Length") == "content-length"
  {
    SameLower("Content-Length", "content-length");
  }

  lemma LowerConnection()
    ensures Lower("Connection") == "connection"
  {
    SameLower("Connection", "connection");
  }

  lemma LowerHost()
    ensures Lower("Host") == "host"
  {
    SameLower("Host", "host");
  }

  lemma SameLower(s: string, t: string)
    requires |s| == |t| && forall i :: 0 <= i < |s| ==> t[i] == ToLower(s[i])
    ensures Lower(s) == t
  {
    assert forall i :: 0 <= i < |s| ==> Lower(s)[i] == t[i];
  }
}
