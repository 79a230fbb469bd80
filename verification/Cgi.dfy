/** The text scan that parseCGI makes over the output of a CGI program. */
module Cgi {
  import opened Wrappers
  import opened Text
  import opened Fields

  const BLANK_LINE: string := "\r\n\r\n"
  const STATUS: string := "Status"

  /** `part` stands at position i of s. */
  predicate Occurs(s: string, part: string, i: nat) {
    i + |part| <= |s| && s[i..i + |part|] == part
  }

  /** The first position at or behind i where `part` stands, or |s|. */
  function Find(s: string, part: string, i: nat := 0): (k: nat)
    requires i <= |s| && part != ""
    ensures i <= k <= |s|
    ensures k < |s| ==> Occurs(s, part, k)
    ensures forall j :: i <= j < k ==> !Occurs(s, part, j)
    decreases |s| - i
  {
    if i == |s| || Occurs(s, part, i) then i else Find(s, part, i + 1)
  }

  predicate IsLineChar(c: char) { c == '\r' || c == '\n' }

  function SkipLineChars(s: string, i: nat): (k: nat)
    requires i <= |s|
    ensures i <= k <= |s|
    decreases |s| - i
  {
    if IsLineChar(CharAt(s, i)) then SkipLineChars(s, i + 1) else i
  }

  /** The first position at or behind i that holds `c` or 0. */
  function Stop(s: string, c: char, i: nat): (k: nat)
    requires i <= |s|
    ensures i <= k <= |s| && (CharAt(s, k) == c || CharAt(s, k) == '\0')
    decreases |s| - i
  {
    if CharAt(s, i) == c || CharAt(s, i) == '\0' then i else Stop(s, c, i + 1)
  }

  /** Where the value behind a key that ends at k begins; the position may be undefined. */
  function ValueStart(h: string, k: nat): nat
    requires k <= |h|
  {
    if CharAt(h, k) == ':' then k + 2 else k
  }

  /** Behind at most one CR and then at most one LF. */
  function LineEnd(h: string, v: nat): (k: nat)
    requires v <= |h|
    ensures v <= k <= |h|
  {
    var a := if CharAt(h, v) == '\r' then v + 1 else v;
    if CharAt(h, a) == '\n' then a + 1 else a
  }

  /** "key: value" lines from position i on, up to the end or a 0; None where the program would
      index behind the string. */
  function FieldsFrom(h: string, i: nat): Option<seq<Field>>
    requires i <= |h|
    decreases |h| - i
  {
    if CharAt(h, i) == '\0' then Some([])
    else
      var k := Stop(h, ':', i);
      var b := ValueStart(h, k);
      if b > |h| then None
      else
        var v := Stop(h, '\r', b);
        var rest := FieldsFrom(h, LineEnd(h, v));
        if rest.None? then None else Some([Field(h[i..k], h[b..v])] + rest.value)
  }

  /** The header lines behind the Status line, and the body; None where the scan is undefined. */
  function Scan(out: string): Option<(seq<Field>, string)> {
    var bodyPos := Find(out, BLANK_LINE);
    if bodyPos == |out| then None
    else
      var header := out[..bodyPos];
      var s := Find(header, STATUS);
      if s == |header| then None
      else
        var cr := IndexOf(header, '\r', s);
        if cr == |header| then None
        else
          var fields := FieldsFrom(header[SkipLineChars(header, cr)..], 0);
          if fields.None? then None
          else Some((fields.value, out[SkipLineChars(out, bodyPos)..]))
  }

  /** addHeader for one field after the other. */
  function InsertAll(headers: FieldMap, fields: seq<Field>): FieldMap
    decreases |fields|
  {
    if fields == [] then headers else InsertAll(Insert(headers, fields[0].key, fields[0].value), fields[1..])
  }

  /** The scan as the program makes it. */
  method ParseCgi(out: string) returns (r: Option<(seq<Field>, string)>)
    ensures r == Scan(out)
  {
    hide FieldsFrom, Find;
    var bodyPos := Find(out, BLANK_LINE);
    if bodyPos == |out| { return None; }
    var header := out[..bodyPos];
    var pos := Find(header, STATUS);
    if pos == |header| { return None; }
    pos := IndexOf(header, '\r', pos);
    if pos == |header| { return None; }
    pos := SkipBreaks(header, pos);
    header := header[pos..];
    var fields := ParseFields(header);
    if fields.None? { return None; }
    bodyPos := SkipBreaks(out, bodyPos);
    return Some((fields.value, out[bodyPos..]));
  }

  method SkipBreaks(s: string, start: nat) returns (pos: nat)
    requires start <= |s|
    ensures pos == SkipLineChars(s, start)
  {
    pos := start;
    while CharAt(s, pos) == '\r' || CharAt(s, pos) == '\n'
      invariant pos <= |s| && SkipLineChars(s, pos) == SkipLineChars(s, start)
      decreases |s| - pos
    {
      pos := pos + 1;
    }
  }

  method ParseFields(header: string) returns (r: Option<seq<Field>>)
    ensures r == FieldsFrom(header, 0)
  {
    hide FieldsFrom;
    var pos, fields := 0, [];
    TogetherNone(FieldsFrom(header, 0));
    while CharAt(header, pos) != '\0'
      invariant pos <= |header| && Together(fields, FieldsFrom(header, pos)) == FieldsFrom(header, 0)
      decreases |header| - pos
    {
      ghost var done := fields;
      FieldsRound(header, pos);
      var key, value;
      key, pos := TakeUntil(header, pos, ':');
      if CharAt(header, pos) == ':' {
        pos := pos + 2;
        if pos > |header| { return None; }
      }
      value, pos := TakeUntil(header, pos, '\r');
      fields := fields + [Field(key, value)];
      if CharAt(header, pos) == '\r' { pos := pos + 1; }
      if CharAt(header, pos) == '\n' { pos := pos + 1; }
      TogetherOne(done, Field(key, value), FieldsFrom(header, pos));
    }
    FieldsEnd(header, pos);
    assert fields + [] == fields;
    return Some(fields);
  }

  method TakeUntil(s: string, start: nat, c: char) returns (text: string, pos: nat)
    requires start <= |s|
    ensures pos == Stop(s, c, start) && text == s[start..pos]
  {
    text, pos := "", start;
    while CharAt(s, pos) != '\0' && CharAt(s, pos) != c
      invariant start <= pos <= |s| && text == s[start..pos]
      invariant Stop(s, c, pos) == Stop(s, c, start)
      decreases |s| - pos
    {
      text := text + [CharAt(s, pos)];
      pos := pos + 1;
    }
  }

  lemma FieldsEnd(h: string, i: nat)
    requires i <= |h| && CharAt(h, i) == '\0'
    ensures FieldsFrom(h, i) == Some([])
  {
  }

  lemma FieldsRound(h: string, i: nat)
    requires i <= |h| && CharAt(h, i) != '\0'
    ensures
      var k := Stop(h, ':', i);
      var b := ValueStart(h, k);
      if b > |h| then FieldsFrom(h, i) == None
      else
        var v := Stop(h, '\r', b);
        FieldsFrom(h, i) == Together([Field(h[i..k], h[b..v])], FieldsFrom(h, LineEnd(h, v)))
  {
  }

  lemma TogetherNone(rest: Option<seq<Field>>)
    ensures Together([], rest) == rest
  {
    if rest.Some? { assert [] + rest.value == rest.value; }
  }

  function Together(done: seq<Field>, rest: Option<seq<Field>>): Option<seq<Field>> {
    if rest.None? then None else Some(done + rest.value)
  }

  lemma TogetherOne(done: seq<Field>, f: Field, rest: Option<seq<Field>>)
    ensures Together(done, Together([f], rest)) == Together(done + [f], rest)
  {
    if rest.Some? { assert done + ([f] + rest.value) == done + [f] + rest.value; }
  }

  // ------------------------------------------------------------- round trip

  /** CGI output: a Status line, header lines, a blank line, and the body. */
  function PrintCgi(status: string, fields: seq<Field>, body: string): string {
    "Status: " + status + "\r\n" + PrintLines(fields) + "\r\n" + body
  }

  function PrintLines(fields: seq<Field>): string {
    if fields == [] then "" else FieldLine(fields[0]) + CRLF + PrintLines(fields[1..])
  }

  predicate Plain(s: string) { '\r' !in s && '\0' !in s }

  predicate IsCgiField(f: Field) {
    Plain(f.key) && Plain(f.value) && ':' !in f.key && '\n' !in f.key
  }

  predicate AreCgiFields(fields: seq<Field>) { forall i :: 0 <= i < |fields| ==> IsCgiField(fields[i]) }

  /** The same lines without the last line end, which is how the scan sees them. */
  function JoinLines(fields: seq<Field>): string
    requires fields != []
  {
    if |fields| == 1 then FieldLine(fields[0]) else FieldLine(fields[0]) + CRLF + JoinLines(fields[1..])
  }

  lemma {:induction false} PrintJoined(fields: seq<Field>)
    requires fields != []
    ensures PrintLines(fields) == JoinLines(fields) + CRLF
  {
    if |fields| == 1 {
      assert PrintLines(fields[1..]) == "";
      assert FieldLine(fields[0]) + CRLF + "" == FieldLine(fields[0]) + CRLF;
    } else {
      PrintJoined(fields[1..]);
      var f, j := FieldLine(fields[0]) + CRLF, JoinLines(fields[1..]);
      assert f + (j + CRLF) == f + j + CRLF;
    }
  }

  lemma StopIs(s: string, c: char, i: nat, k: nat)
    requires i <= k <= |s| && (CharAt(s, k) == c || CharAt(s, k) == '\0')
    requires forall j :: i <= j < k ==> s[j] != c && s[j] != '\0'
    ensures Stop(s, c, i) == k
    decreases k - i
  {
    if i < k { StopIs(s, c, i + 1, k); }
  }

  /** One line of a header text h, which stands at position i. */
  lemma OneLine(h: string, i: nat, f: Field, rest: string)
    requires i <= |h| && IsCgiField(f) && h[i..] == FieldLine(f) + rest
    requires rest == "" || (|rest| > 2 && IsCrlf(rest, 0))
    ensures
      var v := i + |FieldLine(f)|;
      var next := if rest == "" then v else v + 2;
      && next <= |h| && h[next..] == (if rest == "" then "" else rest[2..])
      && FieldsFrom(h, i) == Together([f], FieldsFrom(h, next))
  {
    hide FieldsFrom, FieldLine, IsCgiField, Stop, IsCrlf;
    var k, v := i + |f.key|, i + |FieldLine(f)|;
    LineChars(h, i, f, rest);
    StopIs(h, ':', i, k);
    StopIs(h, '\r', k + 2, v);
    LineTail(h, i, FieldLine(f), rest);
    FieldsRound(h, i);
    assert f == Field(f.key, f.value);
  }

  lemma LineTail(h: string, i: nat, line: string, rest: string)
    requires i <= |h| && h[i..] == line + rest && (rest == "" || |rest| > 2)
    ensures i + |line| <= |h| && h[i + |line|..] == rest
    ensures rest != "" ==> i + |line| + 2 <= |h| && h[i + |line| + 2..] == rest[2..]
  {
    assert h[i + |line|..] == h[i..][|line|..] == rest;
    if rest != "" { assert h[i + |line| + 2..] == h[i + |line|..][2..]; }
  }

  lemma LineChars(h: string, i: nat, f: Field, rest: string)
    requires i <= |h| && IsCgiField(f) && h[i..] == FieldLine(f) + rest
    requires rest == "" || (|rest| > 2 && IsCrlf(rest, 0))
    ensures
      var k, v := i + |f.key|, i + |FieldLine(f)|;
      && k + 2 <= v <= |h| && h[k] == ':' && h[i] != '\0'
      && (forall j :: i <= j < k ==> h[j] == f.key[j - i] && h[j] != ':' && h[j] != '\0')
      && (forall j :: k + 2 <= j < v ==> h[j] == f.value[j - k - 2] && h[j] != '\r' && h[j] != '\0')
      && CharAt(h, v) == (if rest == "" then '\0' else '\r')
      && (rest != "" ==> v + 2 <= |h| && h[v + 1] == '\n')
      && h[i..k] == f.key && h[k + 2..v] == f.value
  {
    var line, k := FieldLine(f), i + |f.key|;
    assert |h| == i + |line| + |rest|;
    assert forall j :: i <= j < |h| ==> h[j] == (line + rest)[j - i];
    assert forall j :: 0 <= j < |f.key| ==> line[j] == f.key[j] && f.key[j] in f.key;
    assert forall j :: 0 <= j < |f.value| ==> line[|f.key| + 2 + j] == f.value[j] && f.value[j] in f.value;
    assert line[|f.key|] == ':';
  }

  lemma JoinTail(fields: seq<Field>)
    requires fields != []
    ensures JoinLines(fields) ==
      if |fields| == 1 then FieldLine(fields[0])
      else FieldLine(fields[0]) + (CRLF + JoinLines(fields[1..]))
  {
    hide FieldLine;
    if |fields| > 1 {
      Regrouped(FieldLine(fields[0]), JoinLines(fields[1..]));
    }
  }

  lemma Regrouped(line: string, others: string)
    ensures line + CRLF + others == line + (CRLF + others)
  {
  }

  lemma {:induction false} LinesRead(h: string, i: nat, fields: seq<Field>)
    requires fields != [] && AreCgiFields(fields) && i <= |h| && h[i..] == JoinLines(fields)
    ensures FieldsFrom(h, i) == Some(fields)
    decreases |fields|
  {
    hide FieldsFrom, FieldLine, IsCgiField, JoinLines;
    var f := fields[0];
    JoinTail(fields);
    if |fields| == 1 {
      assert h[i..] == FieldLine(f) + "";
      OneLine(h, i, f, "");
      FieldsEnd(h, i + |FieldLine(f)|);
      assert [f] + [] == fields;
    } else {
      var others := JoinLines(fields[1..]);
      FirstIsNoBreak(fields[1..]);
      assert (CRLF + others)[2..] == others;
      OneLine(h, i, f, CRLF + others);
      LinesRead(h, i + |FieldLine(f)| + 2, fields[1..]);
      assert [f] + fields[1..] == fields;
    }
  }

  /** In printed lines a CR is always the end of a line and never the end of two. */
  lemma {:induction false} NoBlankLine(fields: seq<Field>, j: nat)
    requires fields != [] && AreCgiFields(fields) && j < |JoinLines(fields)|
    ensures JoinLines(fields)[j] == '\r' ==> j + 2 < |JoinLines(fields)| && JoinLines(fields)[j + 2] != '\r'
    decreases |fields|
  {
    var f, line := fields[0], FieldLine(fields[0]);
    assert '\r' !in line;
    if |fields| > 1 {
      var others := JoinLines(fields[1..]);
      FirstIsNoBreak(fields[1..]);
      assert JoinLines(fields) == line + CRLF + others;
      if j >= |line| + 2 { NoBlankLine(fields[1..], j - |line| - 2); }
    }
  }

  lemma FirstIsNoBreak(fields: seq<Field>)
    requires fields != [] && AreCgiFields(fields)
    ensures JoinLines(fields) != "" && !IsLineChar(JoinLines(fields)[0])
  {
    var f := fields[0];
    assert JoinLines(fields)[0] == FieldLine(f)[0] == if f.key == "" then ':' else f.key[0];
    assert f.key != "" ==> f.key[0] in f.key;
  }

  /** Where the scan finds the header, the end of the Status line, and the body. */
  lemma CgiLayout(status: string, fields: seq<Field>, body: string)
    requires Plain(status) && fields != [] && AreCgiFields(fields)
    ensures
      var top := STATUS + ": " + status;
      var header := top + CRLF + JoinLines(fields);
      var out := PrintCgi(status, fields, body);
      && out == header + BLANK_LINE + body
      && Find(out, BLANK_LINE) == |header| < |out| && out[..|header|] == header
      && Find(header, STATUS) == 0 && IndexOf(header, '\r', 0) == |top|
  {
    var top, lines := STATUS + ": " + status, JoinLines(fields);
    var header := top + CRLF + lines;
    var out := PrintCgi(status, fields, body);
    PrintJoined(fields);
    FirstIsNoBreak(fields);
    assert out == header + BLANK_LINE + body by {
      assert CRLF + CRLF == BLANK_LINE;
      assert out == top + CRLF + (lines + CRLF) + CRLF + body;
    }
    assert '\r' !in top;
    assert forall j :: 0 <= j < |top| ==> header[j] == top[j] && header[j] != '\r';
    IndexOfIs(header, '\r', 0, |top|);
    assert Occurs(header, STATUS, 0) && Find(header, STATUS) == 0;
    forall j | 0 <= j < |header| ensures !Occurs(out, BLANK_LINE, j) {
      NotBlankAt(top, fields, body, j);
    }
    assert Occurs(out, BLANK_LINE, |header|) by { assert out[|header|..|header| + 4] == BLANK_LINE; }
    FindIs(out, BLANK_LINE, |header|);
  }

  lemma FindIs(s: string, part: string, k: nat)
    requires part != "" && k < |s| && Occurs(s, part, k) && forall j :: 0 <= j < k ==> !Occurs(s, part, j)
    ensures Find(s, part) == k
  {
    var n := Find(s, part);
    assert n == |s| || Occurs(s, part, n);
  }

  lemma NotBlankAt(top: string, fields: seq<Field>, body: string, j: nat)
    requires '\r' !in top && fields != [] && AreCgiFields(fields)
    requires j < |top| + 2 + |JoinLines(fields)|
    ensures !Occurs(top + CRLF + JoinLines(fields) + BLANK_LINE + body, BLANK_LINE, j)
  {
    hide JoinLines, IsCgiField;
    var lines := JoinLines(fields);
    var out, n := top + CRLF + lines + BLANK_LINE + body, |top| + 2;
    FirstIsNoBreak(fields);
    if j < |top| {
      assert out[j] == top[j];
    } else if j < n {
      assert out[n - 1] == '\n' && out[n] == lines[0];
    } else {
      assert out[j] == lines[j - n];
      NoBlankLine(fields, j - n);
      if lines[j - n] == '\r' { assert out[j + 2] == lines[j - n + 2]; }
    }
    if Occurs(out, BLANK_LINE, j) { BlankChars(out, j); }
  }

  lemma BlankChars(s: string, j: nat)
    requires Occurs(s, BLANK_LINE, j)
    ensures s[j] == '\r' && s[j + 1] == '\n' && s[j + 2] == '\r'
  {
    var w := s[j..j + 4];
    assert s[j] == w[0] && s[j + 1] == w[1] && s[j + 2] == w[2];
  }

  /** The scan recovers the header lines in order and exactly the body. */
  lemma CgiRoundTrip(status: string, fields: seq<Field>, body: string)
    requires Plain(status) && fields != [] && AreCgiFields(fields)
    requires body == "" || !IsLineChar(body[0])
    ensures Scan(PrintCgi(status, fields, body)) == Some((fields, body))
  {
    hide Find, FieldsFrom, JoinLines, PrintCgi;
    var top, lines := STATUS + ": " + status, JoinLines(fields);
    var header := top + CRLF + lines;
    var out := PrintCgi(status, fields, body);
    CgiLayout(status, fields, body);
    FirstIsNoBreak(fields);
    SkipTwo(header, |top|, lines);
    assert lines[0..] == lines;
    LinesRead(lines, 0, fields);
    assert out[|header|..] == CRLF + (CRLF + body);
    SkipTwoMore(out, |header|, body);
  }

  lemma SkipTwo(s: string, i: nat, rest: string)
    requires i + 2 <= |s| && IsCrlf(s, i) && s[i + 2..] == rest && (rest == "" || !IsLineChar(rest[0]))
    ensures SkipLineChars(s, i) == i + 2
  {
    assert CharAt(s, i + 2) == if rest == "" then '\0' else rest[0];
    assert SkipLineChars(s, i + 2) == i + 2;
    assert SkipLineChars(s, i + 1) == i + 2;
  }

  lemma SkipTwoMore(s: string, i: nat, body: string)
    requires i <= |s| && s[i..] == CRLF + (CRLF + body) && (body == "" || !IsLineChar(body[0]))
    ensures i + 4 <= |s| && s[SkipLineChars(s, i)..] == body
  {
    var w := s[i..];
    assert s[i] == w[0] && s[i + 1] == w[1] && s[i + 2] == w[2] && s[i + 3] == w[3];
    assert s[i + 4..] == w[4..] == body;
    SkipTwo(s, i + 2, body);
    assert SkipLineChars(s, i + 1) == i + 4;
  }

  /** The headers of the response: the first value of each key wins. */
  lemma {:induction false} InsertAllLookup(headers: FieldMap, fields: seq<Field>, key: string)
    requires Sorted(headers)
    ensures Sorted(InsertAll(headers, fields))
    ensures Lookup(InsertAll(headers, fields), key) ==
      if Lookup(headers, key).Some? then Lookup(headers, key) else Lookup(fields, key)
    decreases |fields|
  {
    if fields != [] {
      var f := fields[0];
      InsertSorted(headers, f.key, f.value);
      InsertLookup(headers, f.key, f.value, key);
      InsertAllLookup(Insert(headers, f.key, f.value), fields[1..], key);
    }
  }
}
