/** What a message prints, it reads back. */
module RoundTrips {
  import opened Wrappers
  import opened Text
  import opened Fields
  import opened CLib
  import opened RequestSpec
  import opened Segmentation
  import Chunked
  import opened StartLines
  import opened Heads
  import opened Libft
  import opened Responses

  predicate IsField(f: Field) {
    && f.key != "" && ':' !in f.key && !HasCrlf(f.key)
    && !HasCrlf(f.value) && (f.value == "" || f.value[0] != ' ')
  }

  predicate AreFields(headers: FieldMap) { forall i :: 0 <= i < |headers| ==> IsField(headers[i]) }

  lemma FieldLineHasNoCrlf(f: Field)
    requires IsField(f)
    ensures !HasCrlf(FieldLine(f))
  {
    var line, n := FieldLine(f), |f.key|;
    assert forall j :: 0 <= j < n ==> line[j] == f.key[j];
    assert forall j :: 0 <= j < |f.value| ==> line[n + 2 + j] == f.value[j];
    forall j: nat | j + 1 < |line| ensures !IsCrlf(line, j) {
      assert j + 1 >= n || !IsCrlf(f.key, j);
      assert j < n + 2 || !IsCrlf(f.value, j - n - 2);
    }
  }

  lemma FieldLineIsLine(f: Field)
    requires IsField(f)
    ensures IsLine(FieldLine(f))
  {
    hide IsField, IsHeaderLine, FieldLine, HasCrlf;
    FieldLineHasNoCrlf(f);
    FieldLineRead([], f);
  }

  lemma FieldLineRead(headers: FieldMap, f: Field)
    requires IsField(f)
    ensures IsHeaderLine(FieldLine(f))
    ensures AddHeader(headers, FieldLine(f)) == Insert(headers, f.key, f.value)
  {
    hide Insert, HasCrlf;
    var line, n := FieldLine(f), |f.key|;
    assert forall j :: 0 <= j < n ==> line[j] == f.key[j];
    IndexOfIs(line, ':', 0, n);
    assert line[..n] == f.key;
    assert line[n + 1..] == " " + f.value;
    assert (" " + f.value)[1..] == f.value;
    assert DropSpaces(" " + f.value) == f.value;
  }

  /** The lines that print a map. */
  function FieldLines(headers: FieldMap): seq<string> {
    if headers == [] then [] else [FieldLine(headers[0])] + FieldLines(headers[1..])
  }

  lemma {:induction false} PrintedAreLines(headers: FieldMap)
    requires AreFields(headers)
    ensures AreLines(FieldLines(headers)) && PrintFields(headers) == PrintLines(FieldLines(headers)) + CRLF
    decreases |headers|
  {
    hide IsLine, IsField, FieldLine;
    if headers != [] {
      PrintedAreLines(headers[1..]);
      FieldLineIsLine(headers[0]);
      var line, lines := FieldLine(headers[0]), FieldLines(headers[1..]);
      assert ([line] + lines)[1..] == lines;
      assert line + CRLF + (PrintLines(lines) + CRLF) == line + CRLF + PrintLines(lines) + CRLF;
    }
  }

  lemma {:induction false} LinesAreFields(done: FieldMap, headers: FieldMap)
    requires AreFields(headers) && Sorted(done + headers)
    ensures ReadLines(done, FieldLines(headers)) == done + headers
    decreases |headers|
  {
    hide Insert, AddHeader, IsField, FieldLine;
    if headers == [] {
      assert done + [] == done;
    } else {
      var f, all := headers[0], done + headers;
      assert done + [f] == all[..|done| + 1] && done + [f] + headers[1..] == all;
      FieldLineRead(done, f);
      assert f == Field(f.key, f.value);
      InsertLast(done, f.key, f.value);
      var line, lines := FieldLine(f), FieldLines(headers[1..]);
      assert ([line] + lines)[1..] == lines;
      LinesAreFields(done + [f], headers[1..]);
    }
  }

  /** parseHeaders on what putHeaders wrote: exactly that map, and the bytes behind it intact. */
  lemma HeadersRoundTrip(m: Message, headers: FieldMap, rest: string)
    requires m.rpos == 0 && m.buf == PrintFields(headers) + rest
    requires AreFields(headers) && Sorted(m.headers + headers)
    ensures HeaderLines(m) == Progress(PreBody, m.(headers := m.headers + headers, buf := rest))
  {
    hide HeaderLines, PrintFields, AreFields, FieldLines, Sorted;
    PrintedAreLines(headers);
    var lines := FieldLines(headers);
    assert PrintLines(lines) + CRLF + rest == PrintLines(lines) + (CRLF + rest);
    LinesRead(m, lines, rest);
    LinesAreFields(m.headers, headers);
  }

  lemma LineKeeps(headers: FieldMap, line: string, key: string)
    requires Sorted(headers)
    ensures Sorted(AddHeader(headers, line))
    ensures Lookup(headers, key).Some? ==> Lookup(AddHeader(headers, line), key) == Lookup(headers, key)
  {
    hide Insert, Sorted, Lookup;
    var c := IndexOf(line, ':');
    if c < |line| {
      InsertSorted(headers, line[..c], DropSpaces(line[c + 1..]));
      InsertLookup(headers, line[..c], DropSpaces(line[c + 1..]), key);
    }
  }

  /** A field that was read stays: later lines with its key change nothing. */
  lemma {:induction false} FirstValueStays(m: Message, key: string)
    requires m.rpos == 0 && Sorted(m.headers)
    ensures Sorted(HeaderLines(m).m.headers)
    ensures Lookup(m.headers, key).Some? ==> Lookup(HeaderLines(m).m.headers, key) == Lookup(m.headers, key)
    decreases |m.buf|
  {
    hide HeaderLines, AddHeader, Sorted, IsHeaderLine, Lookup;
    HeaderRound(m);
    var k := NextCrlf(m.buf, 0);
    if 0 < k < |m.buf| && IsHeaderLine(m.buf[..k]) {
      LineKeeps(m.headers, m.buf[..k], key);
      FirstValueStays(m.(headers := AddHeader(m.headers, m.buf[..k]), buf := m.buf[k + 2..]), key);
    }
  }

  lemma MethodNames(verb: int)
    requires HEAD <= verb <= DELETE
    ensures IsName(MethodName(verb)) && !HasCrlf(MethodName(verb)) && MethodId(MethodName(verb)) == verb
  {
    hide IsName, MethodId;
    var name := MethodName(verb);
    assert name != "" && AllUpper(name);
    NameIsUpper(name);
    NoNul(name);
    MethodIdExact(name);
  }

  /** The head of a printed request is read as what was printed, and its data stays. */
  lemma PrintedHead(verb: int, target: string, headers: FieldMap, data: string)
    requires HEAD <= verb <= DELETE && IsTarget(target) && !HasCrlf(target) && AreFields(headers) && Sorted(headers)
    ensures
      var h := HeadStage(Fresh(PrintRequest(verb, target, HTTP_1_1, headers, data)));
      && h.phase == PreBody && h.verb == verb && Stored(target, h.configDir, h.requestUri)
      && h.m == FreshMessage(data).(headers := headers)
  {
    hide HeadStage, PrintFields, AreFields, FieldLines, Sorted, Stored, MethodId, MethodName, IsTarget, IsName;
    var name, lines := MethodName(verb), FieldLines(headers);
    MethodNames(verb);
    PrintedAreLines(headers);
    assert PrintRequest(verb, target, HTTP_1_1, headers, data) == PrintHead(name, target, lines) + data;
    HeadRead(name, target, lines, data);
    assert [] + headers == headers;
    LinesAreFields([], headers);
  }

  /** Printing a bodiless request and reading it back, under every segmentation: the same method,
      target, version and headers, and what was appended still in the buffer. */
  lemma RequestRoundTrip(verb: int, target: string, headers: FieldMap, data: string, segments: seq<string>)
    requires verb == GET || verb == HEAD || verb == DELETE
    requires IsTarget(target) && !HasCrlf(target) && AreFields(headers) && Sorted(headers)
    requires segments != [] && Flatten(segments) == PrintRequest(verb, target, HTTP_1_1, headers, data)
    ensures
      var q := Deliver(Fresh(""), segments);
      && q.phase == Complete && q.verb == verb && Stored(target, q.configDir, q.requestUri)
      && q.m == FreshMessage(data).(headers := headers)
  {
    hide HeadStage, PrintRequest, RequestSpec.ChunkLoop, Stored, Deliver;
    PrintedHead(verb, target, headers, data);
    FeedFresh(Flatten(segments));
    DeliverIsOneShot(Fresh(""), segments);
  }

  /** The head of a printed request whose headers say chunked. */
  lemma PrintedChunkedHead(verb: int, target: string, headers: FieldMap)
    requires verb == POST || verb == PUT
    requires IsTarget(target) && !HasCrlf(target) && AreFields(headers) && Sorted(headers)
    requires HeaderValue(headers, "Transfer-Encoding") == "chunked"
    ensures Chunked.IsChunkedHead(PrintRequest(verb, target, HTTP_1_1, headers, ""))
  {
    hide HeadStage, PrintRequest, HeaderValue, Chunked.IsChunkedHead;
    PrintedHead(verb, target, headers, "");
    Chunked.HeadParses(PrintRequest(verb, target, HTTP_1_1, headers, ""));
  }

  /** A printed POST or PUT request with a chunked body, under every segmentation: the same method,
      target, version, headers and data, and what follows still in the buffer. */
  lemma ChunkedRequestRoundTrip(verb: int, target: string, headers: FieldMap, pieces: seq<Chunked.Piece>,
      last: Chunked.Piece, rest: string, segments: seq<string>)
    requires verb == POST || verb == PUT
    requires IsTarget(target) && !HasCrlf(target) && AreFields(headers) && Sorted(headers)
    requires HeaderValue(headers, "Transfer-Encoding") == "chunked"
    requires Chunked.ArePieces(pieces) && Chunked.IsLast(last) && segments != []
    requires Flatten(segments)
          == PrintRequest(verb, target, HTTP_1_1, headers, "") + Chunked.Encode(pieces, last) + rest
    ensures
      var q, data := Deliver(Fresh(""), segments), Chunked.Data(pieces);
      && q.phase == Complete && q.verb == verb && Stored(target, q.configDir, q.requestUri)
      && q.m.headers == headers && q.m.data == Some(data) && q.m.dataLen == |data| && q.m.buf == rest
  {
    hide RequestSpec.Parse, HeadStage, Stored, PrintRequest, Deliver, HeaderValue, Chunked.ArePieces, Chunked.IsLast;
    var head := PrintRequest(verb, target, HTTP_1_1, headers, "");
    PrintedHead(verb, target, headers, "");
    PrintedChunkedHead(verb, target, headers);
    Chunked.ChunkedDelivery(head, pieces, last, rest, segments);
    var n, end := |Flatten(segments)|, |head| + |Chunked.Encode(pieces, last)|;
    assert rest[..n - end] == rest;
  }

  lemma {:induction false} NoCrInDigits(n: nat)
    ensures '\r' !in DigitsOf(n)
  {
    if n >= 10 { NoCrInDigits(n / 10); }
  }

  /** Behind its status line a printed response has exactly its headers and its data. */
  lemma ResponseRoundTrip(status: int, reason: string, headers: FieldMap, data: Option<string>)
    requires '\r' !in reason && AreFields(headers) && Sorted(headers)
    ensures
      var bytes := PrintResponse(status, reason, headers, data);
      var k := NextCrlf(bytes, 0);
      && k < |bytes| && bytes[..k] == StatusLine(status, reason)
      && HeaderLines(FreshMessage(bytes[k + 2..])) ==
           Progress(PreBody, FreshMessage(if data.Some? then data.value else "").(headers := headers))
  {
    hide HeaderLines, PrintFields;
    var line := StatusLine(status, reason);
    NoCrInDigits(Abs(status));
    assert '\r' !in Decimal(status);
    assert '\r' !in line;
    var body := if data.Some? then data.value else "";
    var rest := PrintFields(headers) + body;
    var bytes := PrintResponse(status, reason, headers, data);
    assert bytes == line + CRLF + rest;
    LineEndOfLine(line, rest);
    assert bytes[|line| + 2..] == rest;
    assert [] + headers == headers;
    HeadersRoundTrip(FreshMessage(rest), headers, body);
  }
}
