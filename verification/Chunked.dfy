/** The chunked transfer coding of RFC 9112, section 7.1, and its decoding by the parser. */
module Chunked {
  import opened Wrappers
  import opened Text
  import opened Fields
  import opened CLib
  import opened RequestSpec
  import opened Segmentation
  import opened StartLines
  import Heads
  import opened Numerals

  /** chunk-size, chunk-ext and chunk-data. */
  datatype Piece = Piece(size: string, ext: string, data: string)

  /** 1*HEXDIG, then nothing or an extension after optional blanks. */
  predicate IsSizeLine(size: string, ext: string) {
    && size != [] && AllHex(size)
    && '\r' !in ext && (ext == "" || ext[0] == ';' || ext[0] == ' ' || ext[0] == '\t')
  }

  /** The digits of either case by their place. */
  function HexValue(size: string): nat { Value(size, 16) }

  predicate IsPiece(c: Piece) {
    IsSizeLine(c.size, c.ext) && 0 < |c.data| == HexValue(c.size) <= INT_MAX
  }

  /** last-chunk: a size of one or more zeros. */
  predicate IsLast(c: Piece) {
    IsSizeLine(c.size, c.ext) && HexValue(c.size) == 0
  }

  predicate ArePieces(pieces: seq<Piece>) { forall i :: 0 <= i < |pieces| ==> IsPiece(pieces[i]) }

  function EncodePiece(c: Piece): string {
    c.size + c.ext + CRLF + c.data + CRLF
  }

  /** chunked-body with an empty trailer section. */
  function Encode(pieces: seq<Piece>, last: Piece): string {
    if pieces == [] then last.size + last.ext + CRLF + CRLF
    else EncodePiece(pieces[0]) + Encode(pieces[1..], last)
  }

  function Data(pieces: seq<Piece>): string {
    if pieces == [] then "" else pieces[0].data + Data(pieces[1..])
  }

  /** The data bytes among the first `n` bytes of an encoded chunk. */
  function DataInPiece(c: Piece, n: nat): string {
    var start := |c.size| + |c.ext| + 2;
    if n <= start then "" else if n - start < |c.data| then c.data[..n - start] else c.data
  }

  /** The data bytes among the first `n` bytes of an encoded body. */
  function DataIn(pieces: seq<Piece>, n: nat): string {
    if pieces == [] then ""
    else if n <= |EncodePiece(pieces[0])| then DataInPiece(pieces[0], n)
    else pieces[0].data + DataIn(pieces[1..], n - |EncodePiece(pieces[0])|)
  }

  /** chunked_status, chunk_size and chunkBodyRead_size. */
  datatype ChunkFields = ChunkFields(inChunk: bool, size: int, read: int)

  function FieldsOf(m: Message): ChunkFields { ChunkFields(m.inChunk, m.chunkSize, m.chunkRead) }

  /** The fields inside of a chunk, `before` being the size of the chunk before it. */
  function FieldsInPiece(c: Piece, before: int, n: nat): ChunkFields {
    var start := |c.size| + |c.ext| + 2;
    if n < start then ChunkFields(false, before, 0)
    else ChunkFields(true, |c.data|, if n - start < |c.data| then n - start else |c.data|)
  }

  /** The fields when the first `n` bytes of an encoded body have arrived. */
  function FieldsAt(pieces: seq<Piece>, last: Piece, before: int, n: nat): ChunkFields
    decreases |pieces|
  {
    if pieces == [] then
      if n < |last.size| + |last.ext| + 2 then ChunkFields(false, before, 0) else ChunkFields(true, 0, 0)
    else if n < |EncodePiece(pieces[0])| then FieldsInPiece(pieces[0], before, n)
    else FieldsAt(pieces[1..], last, |pieces[0].data|, n - |EncodePiece(pieces[0])|)
  }

  /** What has arrived of the data is a prefix of all of it. */
  lemma {:induction false} DataInPrefix(pieces: seq<Piece>, n: nat)
    ensures DataIn(pieces, n) <= Data(pieces)
  {
    if pieces != [] && n > |EncodePiece(pieces[0])| {
      DataInPrefix(pieces[1..], n - |EncodePiece(pieces[0])|);
    }
  }

  /** And it is all of it when the body is whole. */
  lemma {:induction false} DataInWhole(pieces: seq<Piece>, last: Piece)
    ensures DataIn(pieces, |Encode(pieces, last)|) == Data(pieces)
  {
    if pieces != [] { DataInWhole(pieces[1..], last); }
  }

  // ------------------------------------------------------------- size lines

  lemma SizeLineMagnitude(size: string, ext: string)
    requires IsSizeLine(size, ext)
    ensures Strtol(size + ext, 16) == Saturate(HexValue(size))
  {
    hide Strtol, Value, IsHexDigit, Place;
    NoExtension();
    assert "" + "" + ("" + size + ext) == size + ext;
    StrtolReads("", "", "", size, ext);
  }

  lemma NoExtension()
    ensures !IsHexDigit(';') && !IsHexDigit(' ') && !IsHexDigit('\t') && !IsHexDigit('\r')
  {
    PlaceIs(';');
    PlaceIs(' ');
    PlaceIs('\t');
    PlaceIs('\r');
  }

  /** The parser reads the size that the line states if and only if it is below 2^31; up to
      2^32 - 1 it reads a negative number. */
  lemma SizeLineValue(size: string, ext: string)
    requires IsSizeLine(size, ext)
    ensures ChunkSizeOf(size + ext) == HexValue(size) <==> HexValue(size) <= INT_MAX
    ensures INT_MAX < HexValue(size) < TWO_32 ==> ChunkSizeOf(size + ext) == HexValue(size) - TWO_32 < 0
  {
    hide HexValue, Strtol;
    SizeLineMagnitude(size, ext);
  }

  lemma NoCrInSizeLine(size: string, ext: string)
    requires IsSizeLine(size, ext)
    ensures !HasCrlf(size + ext)
  {
  }

  // ------------------------------------------------------------- one chunk

  /** A message that waits for a size line. */
  predicate AtSizeLine(m: Message) { ChunkInv(m) && !m.inChunk && m.rpos == 0 }

  function AddData(m: Message, data: string, rest: string): Message {
    m.(chunkSize := |data|, body := m.body + data, dataLen := |m.body| + |data|, buf := rest)
  }

  function InChunk(m: Message, size: int, rest: string): Message {
    m.(inChunk := true, chunkSize := size, buf := rest)
  }

  lemma ReadSizeLine(m: Message, size: string, ext: string, rest: string)
    requires AtSizeLine(m) && IsSizeLine(size, ext) && HexValue(size) <= INT_MAX
    requires m.buf == size + ext + CRLF + rest
    ensures ChunkInv(InChunk(m, HexValue(size), rest))
    ensures ChunkLoop(m) == ChunkLoop(InChunk(m, HexValue(size), rest))
  {
    var line := size + ext;
    NoCrInSizeLine(size, ext);
    LineEndOfLine(line, rest);
    SizeLineValue(size, ext);
    assert m.buf == line + CRLF + rest;
    assert m.buf[0..|line|] == line;
    assert m.buf[|line| + 2..] == rest;
  }

  lemma PieceData(m: Message, data: string, rest: string)
    requires ChunkInv(m) && m.inChunk && m.rpos == 0 && m.chunkRead == 0 && m.chunkSize == |data| > 0
    requires m.buf == data + CRLF + rest
    ensures AtSizeLine(AddData(m, data, rest).(inChunk := false))
    ensures ChunkLoop(m) == ChunkLoop(AddData(m, data, rest).(inChunk := false))
  {
    var d := TakeData(m);
    assert m.buf[..|data|] == data;
    assert d.buf == CRLF + rest by { assert m.buf[|data|..] == CRLF + rest; }
    assert ChunkLoop(m) == AfterData(d);
    var e := EndChunk(d);
    assert AfterData(d) == ChunkLoop(e);
    assert d.buf[2..] == rest;
    assert e == AddData(m, data, rest).(inChunk := false);
  }

  lemma WholePiece(m: Message, c: Piece, rest: string)
    requires AtSizeLine(m) && IsPiece(c) && m.buf == EncodePiece(c) + rest
    ensures AtSizeLine(AddData(m, c.data, rest))
    ensures ChunkLoop(m) == ChunkLoop(AddData(m, c.data, rest))
  {
    hide RequestSpec.ChunkLoop, RequestSpec.ChunkSizeOf, HexValue;
    var tail := c.data + CRLF + rest;
    assert m.buf == c.size + c.ext + CRLF + tail;
    ReadSizeLine(m, c.size, c.ext, tail);
    PieceData(InChunk(m, |c.data|, tail), c.data, rest);
  }

  /** The decoder waits: between calls, with the cursor at 0, `data` more in the body and these fields. */
  ghost predicate Waits(r: Progress, m: Message, data: string, fields: ChunkFields) {
    && r.phase == Chunk && r.m.rpos == 0 && ChunkInv(r.m) && FieldsOf(r.m) == fields
    && r.m.body == m.body + data && r.m.headers == m.headers && r.m.version == m.version
  }

  lemma PartOfPiece(m: Message, c: Piece)
    requires AtSizeLine(m) && IsPiece(c) && m.buf <= EncodePiece(c) && |m.buf| < |EncodePiece(c)|
    ensures Waits(ChunkLoop(m), m, DataInPiece(c, |m.buf|), FieldsInPiece(c, m.chunkSize, |m.buf|))
  {
    var line, t := c.size + c.ext, m.buf;
    NoCrInSizeLine(c.size, c.ext);
    assert EncodePiece(c) == (line + CRLF) + (c.data + CRLF);
    PrefixSplit(t, line + CRLF, c.data + CRLF);
    if |t| < |line| + 2 {
      NoLineEndYet(line, t);
      assert m.body + "" == m.body;
    } else {
      var tail := t[|line| + 2..];
      ReadSizeLine(m, c.size, c.ext, tail);
      PartOfData(InChunk(m, |c.data|, tail), c.data);
    }
  }

  lemma PartOfData(m: Message, data: string)
    requires ChunkInv(m) && m.inChunk && m.rpos == 0 && m.chunkRead == 0 && m.chunkSize == |data| > 0
    requires |m.buf| < |data| + 2 && m.buf <= data + CRLF
    ensures Waits(ChunkLoop(m), m, if |m.buf| < |data| then data[..|m.buf|] else data,
                  ChunkFields(true, |data|, if |m.buf| < |data| then |m.buf| else |data|))
  {
    PrefixSplit(m.buf, data, CRLF);
    if m.buf != [] {
      var d := TakeData(m);
      assert ChunkLoop(m) == AfterData(d);
      assert if |m.buf| < |data| then m.buf == data[..|m.buf|] else m.buf[..|data|] == data;
    } else {
      assert m.body + data[..0] == m.body;
    }
  }

  // --------------------------------------------------------- the whole body

  /** The decoder is through: everything decoded, and `rest` still in the buffer. */
  ghost predicate Done(r: Progress, m: Message, data: string, rest: string) {
    && r.phase == Complete && r.m.rpos == 0 && r.m.buf == rest
    && r.m.body == m.body + data && r.m.data == Some(m.body + data) && r.m.dataLen == |m.body + data|
    && r.m.headers == m.headers && r.m.version == m.version && FieldsOf(r.m) == ChunkFields(true, 0, 0)
  }

  /** A whole encoded body is decoded to the data of its chunks; bytes behind it stay. */
  lemma {:induction false} DecodeWhole(m: Message, pieces: seq<Piece>, last: Piece, rest: string)
    requires AtSizeLine(m) && ArePieces(pieces) && IsLast(last)
    requires m.buf == Encode(pieces, last) + rest
    ensures Done(ChunkLoop(m), m, Data(pieces), rest)
    decreases |pieces|
  {
    hide RequestSpec.ChunkLoop, RequestSpec.ChunkInv, IsPiece, IsLast, Done;
    if pieces == [] {
      assert m.buf == last.size + last.ext + CRLF + (CRLF + rest);
      EndOfBody(m, last, rest);
    } else {
      var tail := Encode(pieces[1..], last) + rest;
      assert m.buf == EncodePiece(pieces[0]) + tail;
      WholePiece(m, pieces[0], tail);
      DecodeWhole(AddData(m, pieces[0].data, tail), pieces[1..], last, rest);
      DoneOn(ChunkLoop(m), m, pieces[0].data, tail, Data(pieces[1..]), rest);
    }
  }

  lemma EndOfBody(m: Message, last: Piece, rest: string)
    requires AtSizeLine(m) && IsLast(last) && m.buf == last.size + last.ext + CRLF + (CRLF + rest)
    ensures Done(ChunkLoop(m), m, "", rest)
  {
    var tail := CRLF + rest;
    ReadSizeLine(m, last.size, last.ext, tail);
    assert IsCrlf(tail, 0) && tail[2..] == rest;
    assert m.body + "" == m.body;
  }

  lemma DoneOn(r: Progress, m: Message, first: string, tail: string, others: string, rest: string)
    requires Done(r, AddData(m, first, tail), others, rest)
    ensures Done(r, m, first + others, rest)
  {
    assert m.body + first + others == m.body + (first + others);
  }

  /** On a proper prefix the decoder never finishes early and never stalls, and the body is
      what the prefix holds of the data. */
  lemma {:induction false} DecodePrefix(m: Message, pieces: seq<Piece>, last: Piece)
    requires AtSizeLine(m) && ArePieces(pieces) && IsLast(last)
    requires m.buf <= Encode(pieces, last) && |m.buf| < |Encode(pieces, last)|
    ensures Waits(ChunkLoop(m), m, DataIn(pieces, |m.buf|), FieldsAt(pieces, last, m.chunkSize, |m.buf|))
    decreases |pieces|
  {
    hide RequestSpec.ChunkLoop, RequestSpec.ChunkInv, IsPiece, IsLast, Waits, Data;
    if pieces == [] {
      PartOfLast(m, last);
    } else {
      var first, others := EncodePiece(pieces[0]), Encode(pieces[1..], last);
      PrefixSplit(m.buf, first, others);
      if |m.buf| < |first| {
        PartOfPiece(m, pieces[0]);
      } else {
        var tail := m.buf[|first|..];
        WholePiece(m, pieces[0], tail);
        DecodePrefix(AddData(m, pieces[0].data, tail), pieces[1..], last);
        DataInSplit(pieces, |m.buf|);
        WaitsOn(ChunkLoop(m), m, pieces[0].data, tail, DataIn(pieces[1..], |tail|),
                FieldsAt(pieces, last, m.chunkSize, |m.buf|));
      }
    }
  }

  lemma WaitsOn(r: Progress, m: Message, first: string, tail: string, others: string, fields: ChunkFields)
    requires Waits(r, AddData(m, first, tail), others, fields)
    ensures Waits(r, m, first + others, fields)
  {
    assert m.body + first + others == m.body + (first + others);
  }

  lemma DataInSplit(pieces: seq<Piece>, n: nat)
    requires pieces != [] && ArePieces(pieces) && n >= |EncodePiece(pieces[0])|
    ensures DataIn(pieces, n) == pieces[0].data + DataIn(pieces[1..], n - |EncodePiece(pieces[0])|)
  {
    if n == |EncodePiece(pieces[0])| {
      assert DataIn(pieces[1..], 0) == "";
      assert pieces[0].data + "" == pieces[0].data;
    }
  }

  lemma PartOfLast(m: Message, last: Piece)
    requires AtSizeLine(m) && IsLast(last)
    requires m.buf <= last.size + last.ext + CRLF + CRLF && |m.buf| < |last.size| + |last.ext| + 4
    ensures Waits(ChunkLoop(m), m, "", FieldsAt([], last, m.chunkSize, |m.buf|))
  {
    var line, t := last.size + last.ext, m.buf;
    assert m.body + "" == m.body;
    NoCrInSizeLine(last.size, last.ext);
    PrefixSplit(t, line + CRLF, CRLF);
    if |t| < |line| + 2 {
      NoLineEndYet(line, t);
    } else {
      ReadSizeLine(m, last.size, last.ext, t[|line| + 2..]);
    }
  }

  // ------------------------------------------------------ the whole request

  predicate HasBody(name: string) { name == "POST" || name == "PUT" }

  ghost predicate AnnouncesChunks(name: string, lines: seq<string>) {
    HasBody(name) && Heads.ValueIs(lines, "Transfer-Encoding", "transfer-encoding", "chunked")
  }

  predicate HasDigit(s: string) { exists i :: 0 <= i < |s| && s[i] in "0123456789" }

  /** A Content-Length that is not empty and has no digit. */
  ghost predicate OddLength(lines: seq<string>) {
    exists v :: Heads.ValueIs(lines, "Content-Length", "content-length", v) && v != "" && !HasDigit(v)
  }

  lemma NameOfBody(name: string)
    requires IsName(name)
    ensures MethodId(name) in {POST, PUT} <==> HasBody(name)
  {
    hide MethodId;
    MethodIdExact(name);
  }

  lemma DigitSeen(s: string)
    ensures HasDigit(s) <==> exists i :: 0 <= i < |s| && IsDigit(s[i])
  {
    hide IsDigit;
    forall i | 0 <= i < |s| ensures IsDigit(s[i]) <==> s[i] in "0123456789" { DigitIs(s[i]); }
  }

  lemma ChunksOnLines(lines: seq<string>)
    requires Heads.AreLines(lines)
    ensures HeaderValue(Heads.ReadLines([], lines), "Transfer-Encoding") == "chunked" <==>
      Heads.ValueIs(lines, "Transfer-Encoding", "transfer-encoding", "chunked")
  {
    hide Heads.ReadLines, Heads.AreLines, Heads.ValueIs, HeaderValue, Lower;
    Heads.LowerTransferEncoding();
    Heads.HeaderValueOnLines(lines, "Transfer-Encoding", "chunked");
  }

  lemma LengthOnLines(lines: seq<string>)
    requires Heads.AreLines(lines)
    ensures var length := HeaderValue(Heads.ReadLines([], lines), "Content-Length");
      OddLength(lines) <==> length != "" && !HasDigit(length)
  {
    hide Heads.ReadLines, Heads.AreLines, Heads.ValueIs, HeaderValue, HasDigit, Lower;
    Heads.LowerContentLength();
    OnLines(lines, "Content-Length", "content-length");
  }

  lemma OnLines(lines: seq<string>, key: string, lower: string)
    requires Heads.AreLines(lines) && Lower(key) == lower
    ensures forall v :: Heads.ValueIs(lines, key, lower, v) <==> HeaderValue(Heads.ReadLines([], lines), key) == v
  {
    hide Heads.ReadLines, Heads.AreLines, Heads.ValueIs, HeaderValue;
    forall v ensures Heads.ValueIs(lines, key, lower, v) <==> HeaderValue(Heads.ReadLines([], lines), key) == v {
      Heads.HeaderValueOnLines(lines, key, v);
    }
  }

  lemma CheckIs(headers: FieldMap)
    ensures
      var length := HeaderValue(headers, "Content-Length");
      CheckChunked(headers) ==
        if HeaderValue(headers, "Transfer-Encoding") == "chunked" then Chunk
        else if length != "" && !HasDigit(length) then Body else BadRequest
  {
    hide HeaderValue, HasDigit;
    DigitSeen(HeaderValue(headers, "Content-Length"));
  }

  /** How the body is framed, on the lines of the header section. */
  lemma BodyAnnounced(name: string, lines: seq<string>, h: State)
    requires IsName(name) && Heads.AreLines(lines)
    requires h.verb == MethodId(name) && h.m.headers == Heads.ReadLines([], lines)
    ensures PreBodyPhase(h) ==
      if !HasBody(name) then Complete else if AnnouncesChunks(name, lines) then Chunk
      else if OddLength(lines) then Body else BadRequest
  {
    hide MethodId, Heads.ReadLines, Heads.AreLines, Heads.ValueIs, HeaderValue, CheckChunked, OddLength,
        HasDigit, IsName;
    NameOfBody(name);
    ChunksOnLines(lines);
    LengthOnLines(lines);
    CheckIs(h.m.headers);
  }

  /** A request line and a header section, both complete, that announce a chunked body. */
  ghost predicate IsChunkedHead(head: string) {
    exists name, target, lines ::
      && Heads.IsHead(name, target, lines) && AnnouncesChunks(name, lines)
      && head == Heads.PrintHead(name, target, lines)
  }

  lemma IsOne(name: string, target: string, lines: seq<string>)
    requires Heads.IsHead(name, target, lines) && AnnouncesChunks(name, lines)
    ensures IsChunkedHead(Heads.PrintHead(name, target, lines))
  {
    hide AnnouncesChunks, Heads.IsHead, Heads.PrintHead;
  }

  /** What the parser makes of such a head: nothing is left of it, and a chunked body is due. */
  predicate OpensBody(head: string) {
    var h := HeadStage(Fresh(head));
    h.phase == PreBody && h.m.buf == "" && PreBodyPhase(h) == Chunk
  }

  /** Exactly these heads open a chunked body. */
  lemma HeadParses(head: string)
    ensures IsChunkedHead(head) <==> OpensBody(head)
  {
    hide HeadStage, PreBodyPhase, Heads.ValueIs, OddLength, Heads.PrintHead, Heads.ReadLines, Heads.AreLines;
    if OpensBody(head) {
      var name, target, lines := Heads.HeadFound(head);
      assert head == Heads.PrintHead(name, target, lines) + "" == Heads.PrintHead(name, target, lines);
      Heads.HeadRead(name, target, lines, "");
      BodyAnnounced(name, lines, HeadStage(Fresh(head)));
    }
    forall name, target, lines | Heads.IsHead(name, target, lines) && AnnouncesChunks(name, lines)
        && head == Heads.PrintHead(name, target, lines)
      ensures OpensBody(head)
    {
      assert head == head + "";
      Heads.HeadRead(name, target, lines, "");
      BodyAnnounced(name, lines, HeadStage(Fresh(head)));
    }
  }

  lemma HeadPrefix(head: string, t: string)
    requires IsChunkedHead(head) && t <= head && |t| < |head|
    ensures Parse(Fresh(t)).phase in {StartLine, Headers} && Calm(Parse(Fresh(t)))
  {
    hide RequestSpec.ReadStartLine, RequestSpec.HeaderLines, RequestSpec.ChunkLoop, RequestSpec.ChunkInv,
        IsChunkedHead;
    HeadParses(head);
    var b := head[|t|..];
    assert t + b == head;
    HeadStageMore(Fresh(t), b);
  }

  lemma BehindHead(head: string, t: string)
    requires IsChunkedHead(head)
    ensures HeadStage(Fresh(head + t)) == Feed(HeadStage(Fresh(head)), t)
    ensures AtSizeLine(HeadStage(Fresh(head)).m.(buf := t)) && FreshChunk(HeadStage(Fresh(head)).m)
    ensures var h, c := HeadStage(Fresh(head)), ChunkLoop(HeadStage(Fresh(head)).m.(buf := t));
            Parse(Fresh(head + t)) == h.(phase := c.phase, m := c.m)
  {
    hide IsChunkedHead;
    HeadParses(head);
    HeadStageMore(Fresh(head), t);
    var h := HeadStage(Fresh(head));
    assert "" + t == t;
    assert Feed(h, t).m == h.m.(buf := t);
  }

  /** The state of a chunked request of which the first `n` bytes have arrived. */
  ghost predicate StandsAt(q: State, head: string, pieces: seq<Piece>, last: Piece, rest: string, n: nat) {
    var h := HeadStage(Fresh(head));
    var end := |head| + |Encode(pieces, last)|;
    if n < |head| then q.phase in {StartLine, Headers} && Calm(q)
    else
      && q.verb == h.verb && q.configDir == h.configDir && q.requestUri == h.requestUri
      && q.m.headers == h.m.headers && q.m.rpos == 0
      && FieldsOf(q.m) == FieldsAt(pieces, last, -1, n - |head|)
      && if n < end then q.phase == Chunk && ChunkInv(q.m) && q.m.body == DataIn(pieces, n - |head|)
         else
           && q.phase == Complete
           && q.m.body == Data(pieces) && q.m.data == Some(Data(pieces)) && q.m.dataLen == |Data(pieces)|
           && q.m.buf == rest
  }

  lemma BodyPart(head: string, pieces: seq<Piece>, last: Piece, tail: string, rest: string)
    requires IsChunkedHead(head) && ArePieces(pieces) && IsLast(last)
    requires tail <= Encode(pieces, last) && |tail| < |Encode(pieces, last)|
    ensures StandsAt(Parse(Fresh(head + tail)), head, pieces, last, rest, |head| + |tail|)
  {
    hide IsChunkedHead, HeadStage, RequestSpec.ChunkLoop, ArePieces, IsLast, DataIn, FieldsAt;
    BehindHead(head, tail);
    DecodePrefix(HeadStage(Fresh(head)).m.(buf := tail), pieces, last);
    assert "" + DataIn(pieces, |tail|) == DataIn(pieces, |tail|);
  }

  lemma {:induction false} FieldsBehind(pieces: seq<Piece>, last: Piece, before: int, n: nat)
    requires n >= |Encode(pieces, last)|
    ensures FieldsAt(pieces, last, before, n) == ChunkFields(true, 0, 0)
    decreases |pieces|
  {
    if pieces != [] { FieldsBehind(pieces[1..], last, |pieces[0].data|, n - |EncodePiece(pieces[0])|); }
  }

  lemma BodyWhole(head: string, pieces: seq<Piece>, last: Piece, rest: string)
    requires IsChunkedHead(head) && ArePieces(pieces) && IsLast(last)
    ensures StandsAt(Parse(Fresh(head + (Encode(pieces, last) + rest))), head, pieces, last, rest,
                     |head| + |Encode(pieces, last)| + |rest|)
  {
    hide IsChunkedHead, HeadStage, RequestSpec.ChunkLoop, ArePieces, IsLast, Data, FieldsAt, Encode;
    var tail := Encode(pieces, last) + rest;
    BehindHead(head, tail);
    DecodeWhole(HeadStage(Fresh(head)).m.(buf := tail), pieces, last, rest);
    FieldsBehind(pieces, last, -1, |tail|);
    assert "" + Data(pieces) == Data(pieces);
  }

  lemma ChunkedPart(head: string, pieces: seq<Piece>, last: Piece, t: string, rest: string)
    requires IsChunkedHead(head) && ArePieces(pieces) && IsLast(last)
    requires t <= head + Encode(pieces, last) && |t| < |head| + |Encode(pieces, last)|
    ensures StandsAt(Parse(Fresh(t)), head, pieces, last, rest, |t|)
  {
    hide RequestSpec.Parse, RequestSpec.HeadStage, IsChunkedHead;
    PrefixSplit(t, head, Encode(pieces, last));
    if |t| < |head| {
      HeadPrefix(head, t);
    } else {
      BodyPart(head, pieces, last, t[|head|..], rest);
    }
  }

  lemma ChunkedOneShot(head: string, pieces: seq<Piece>, last: Piece, t: string,
      stream: string) returns (rest: string)
    requires IsChunkedHead(head) && ArePieces(pieces) && IsLast(last)
    requires t <= head + Encode(pieces, last) + stream
    ensures rest == if |t| < |head| + |Encode(pieces, last)| then stream
                    else stream[..|t| - |head| - |Encode(pieces, last)|]
    ensures StandsAt(Parse(Fresh(t)), head, pieces, last, rest, |t|)
  {
    hide RequestSpec.Parse, RequestSpec.Inv, RequestSpec.HeadStage, IsChunkedHead, ArePieces, IsLast, Encode,
        StandsAt;
    FreshIsSound();
    var whole := head + Encode(pieces, last);
    PrefixSplit(t, whole, stream);
    if |t| < |whole| {
      rest := stream;
      ChunkedPart(head, pieces, last, t, rest);
    } else {
      rest := t[|whole|..];
      assert t == head + (Encode(pieces, last) + rest);
      BodyWhole(head, pieces, last, rest);
    }
  }

  lemma ChunkedCalm(head: string, pieces: seq<Piece>, last: Piece, t: string, stream: string)
    requires IsChunkedHead(head) && ArePieces(pieces) && IsLast(last)
    requires t <= head + Encode(pieces, last) + stream
    ensures Calm(Parse(Fresh(t)))
  {
    hide RequestSpec.Parse, RequestSpec.HeadStage, IsChunkedHead;
    var left := ChunkedOneShot(head, pieces, last, t, stream);
  }

  /** A chunked request decodes under every segmentation.  After each segment the request is
      what the bytes so far determine; it is complete from the segment on that holds the last
      byte of the body, with all the data, and never before. */
  lemma ChunkedDelivery(head: string, pieces: seq<Piece>, last: Piece, rest: string, segments: seq<string>)
    requires IsChunkedHead(head) && ArePieces(pieces) && IsLast(last) && segments != []
    requires Flatten(segments) <= head + Encode(pieces, last) + rest
    ensures
      var n := |Flatten(segments)|;
      var end := |head| + |Encode(pieces, last)|;
      StandsAt(Deliver(Fresh(""), segments), head, pieces, last, if n < end then rest else rest[..n - end], n)
  {
    hide RequestSpec.Parse, RequestSpec.Inv, IsChunkedHead, ArePieces, IsLast, Encode, StandsAt, Deliver, Calm,
        Flatten;
    FreshIsSound();
    var got := Flatten(segments);
    FeedFresh(got);
    ChunkedCalm(head, pieces, last, got, rest);
    DeliverIsOneShot(Fresh(""), segments);
    var left := ChunkedOneShot(head, pieces, last, got, rest);
  }
}
