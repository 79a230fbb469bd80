/** What one call of HTTPRequest::parse does to a request, as functions on values.
    The classes in HttpMessage.dfy and HttpRequest.dfy are proved to compute them. */
module RequestSpec {
  import opened Wrappers
  import opened Text
  import opened Fields
  import opened CLib

  /** The values of `status`: those of enum Parsing, and 400.  `Spinning` is not a value
      of the program: it stands for the loop over chunks that never ends. */
  datatype Phase =
    StartLine | Headers | PreBody | Chunk | Body | Complete | BadRequest | Spinning

  /** The fields of HTTPMessage and of the ByteBuffer it extends. */
  datatype Message = Message(
    buf: string,
    rpos: nat,
    version: string,
    headers: FieldMap,
    inChunk: bool,          // chunked_status: false before a size line, true inside a chunk
    chunkSize: int,
    chunkRead: int,         // chunkBodyRead_size
    body: string,           // tempBody
    data: Option<string>,   // the first dataLen bytes behind the data pointer
    dataLen: nat)

  /** The fields of HTTPRequest. */
  datatype State = State(
    phase: Phase,
    verb: int,              // method
    configDir: string,
    requestUri: string,
    m: Message)

  /** A phase together with the message it was reached with. */
  datatype Progress = Progress(phase: Phase, m: Message)

  // enum Method
  const HEAD := 0
  const GET := 1
  const POST := 2
  const PUT := 3
  const DELETE := 4

  const HTTP_1_1: string := "HTTP/1.1"

  /** A buffer no longer than this: positions are passed as int. */
  const MAX_BUFFER := INT_MAX

  function FreshMessage(buf: string): Message {
    Message(buf, 0, HTTP_1_1, [], false, -1, 0, "", None, 0)
  }

  function Fresh(buf: string): State {
    State(StartLine, -1, "", "", FreshMessage(buf))
  }

  // ------------------------------------------------------------ start line

  function MethodName(id: int): string {
    if id == HEAD then "HEAD"
    else if id == GET then "GET"
    else if id == POST then "POST"
    else if id == PUT then "PUT"
    else if id == DELETE then "DELETE"
    else ""
  }

  /** The bytes of HTTPRequest::create. */
  function PrintRequest(verb: int, uri: string, version: string, headers: FieldMap, data: string): string {
    MethodName(verb) + " " + uri + " " + version + CRLF + PrintFields(headers) + data
  }

  function MethodId(name: string): (id: int)
    ensures -1 <= id <= DELETE
  {
    var s := CString(name);
    if name == "" || |name| >= 10 then -1
    else if s == "HEAD" then HEAD
    else if s == "GET" then GET
    else if s == "POST" then POST
    else if s == "PUT" then PUT
    else if s == "DELETE" then DELETE
    else -1
  }

  /** The text before the first space and the text behind it; twice the whole line when
      there is no space (find gives -1, and substr(0, -1) and substr(0) are both whole). */
  function SplitWord(line: string): (string, string) {
    var k := IndexOf(line, ' ');
    if k == |line| then (line, line) else (line[..k], line[k + 1..])
  }

  /** The split of a target into config_dir and requestUri, where requestUri was `uri`. */
  function SplitTarget(target: string, uri: string): Option<(string, string)> {
    if target == "" || target[0] != '/' then None
    else
      var i := IndexOf(target, '/', 1);
      var dir := target[..i];
      if i == |target| then Some(if '.' !in dir then (dir, uri) else ("/", dir))
      else if '.' !in dir then Some((dir, target[i..]))
      else None
  }

  /** `line` was just taken from the buffer: the cursor is behind its CRLF. */
  function ReadStartLine(p: State, line: string): State
    requires p.m.rpos <= |p.m.buf|
  {
    var (name, rest) := SplitWord(line);
    if name == "" || !AllUpper(name) then p.(phase := BadRequest)
    else
      var p1 := p.(verb := MethodId(name));
      var (target, version) := SplitWord(rest);
      match SplitTarget(target, p1.requestUri)
      case None => p1.(phase := BadRequest)
      case Some((dir, uri)) =>
        var p2 := p1.(configDir := dir, requestUri := uri, m := p1.m.(version := version));
        if version != HTTP_1_1 then p2.(phase := BadRequest)
        else p2.(phase := Headers, m := p2.m.(buf := p2.m.buf[p2.m.rpos..], rpos := 0))
  }

  function StartLineStage(p: State): State
    requires p.m.rpos <= |p.m.buf|
  {
    var m := p.m;
    var k := NextCrlf(m.buf, m.rpos);
    if k == |m.buf| then p
    else if k == m.rpos then p.(m := m.(rpos := k + 2))
    else ReadStartLine(p.(m := m.(rpos := k + 2)), m.buf[m.rpos..k])
  }

  // --------------------------------------------------------------- headers

  function AddHeader(headers: FieldMap, line: string): FieldMap {
    var k := IndexOf(line, ':');
    if k == |line| then headers
    else Insert(headers, line[..k], DropSpaces(line[k + 1..]))
  }

  predicate IsHeaderLine(line: string) {
    0 < IndexOf(line, ':') < |line|
  }

  /** Field lines up to the blank line that ends the section. */
  function HeaderLines(m: Message): Progress
    requires m.rpos == 0
    decreases |m.buf|
  {
    var k := NextCrlf(m.buf, 0);
    if k == |m.buf| then Progress(Headers, m)
    else if k == 0 then Progress(PreBody, m.(buf := m.buf[2..]))
    else if !IsHeaderLine(m.buf[..k]) then Progress(BadRequest, m.(rpos := k + 2))
    else HeaderLines(m.(headers := AddHeader(m.headers, m.buf[..k]), buf := m.buf[k + 2..]))
  }

  /** getHeaderValue: the key as given, else in lower case, else "". */
  function HeaderValue(headers: FieldMap, key: string): string {
    match Lookup(headers, key)
    case Some(v) => v
    case None =>
      match Lookup(headers, Lower(key))
      case Some(v) => v
      case None => ""
  }

  function CheckChunked(headers: FieldMap): Phase {
    if HeaderValue(headers, "Transfer-Encoding") == "chunked" then Chunk
    else
      var length := HeaderValue(headers, "Content-Length");
      if length == "" || exists i :: 0 <= i < |length| && IsDigit(length[i]) then BadRequest
      else Body
  }

  // ---------------------------------------------------------- chunked body

  /** The number on a chunk size line. */
  function ChunkSizeOf(line: string): (n: int)
    ensures INT_MIN <= n <= INT_MAX
  {
    ToInt32(Strtol(line, 16))
  }

  function Peek(m: Message): char {
    if m.rpos < |m.buf| then m.buf[m.rpos] else '\0'
  }

  /** Chunk size 0: the blank line that ends the body.  Any byte but CR at the cursor moves
      the cursor one back, modulo 2^32. */
  function LastChunk(m: Message): Progress {
    if IsCrlf(m.buf, m.rpos) then
      Progress(Complete,
               m.(buf := m.buf[m.rpos + 2..], rpos := 0,
                  data := if m.data.None? then Some(m.body) else m.data))
    else if Peek(m) == '\r' then Progress(Chunk, m)
    else Progress(Chunk, m.(rpos := Wrap32(m.rpos - 1)))
  }

  /** `n` bytes of the current chunk moved from the buffer to the body. */
  function Take(m: Message, n: nat): Message
    requires m.rpos + n <= |m.buf|
  {
    m.(body := m.body + m.buf[..n], dataLen := |m.body| + n, chunkRead := m.chunkRead + n,
       buf := m.buf[m.rpos + n..], rpos := 0)
  }

  /** How many bytes of the current chunk are there. */
  function Available(m: Message): nat
    requires m.chunkRead <= m.chunkSize
  {
    if m.chunkSize - m.chunkRead > |m.buf| then |m.buf| else m.chunkSize - m.chunkRead
  }

  function TakeData(m: Message): Message
    requires m.rpos <= |m.buf| && (m.rpos == 0 || m.chunkSize == m.chunkRead)
    requires m.chunkRead <= m.chunkSize
  {
    Take(m, Available(m))
  }

  /** What every chunk state at rest satisfies. */
  predicate ChunkInv(m: Message) {
    && INT_MIN <= m.chunkSize <= INT_MAX
    && m.data.None? && m.dataLen == |m.body|
    && if !m.inChunk then m.rpos <= |m.buf| && m.chunkRead == 0
       else if m.chunkSize <= 0 then
         m.chunkRead == 0 && m.rpos < TWO_32 && (m.chunkSize < 0 ==> m.rpos == 0)
       else
         && 0 <= m.chunkRead <= m.chunkSize
         && (m.rpos == 0 || (m.rpos == 1 <= |m.buf| && m.chunkRead == m.chunkSize))
  }

  function ChunkLoop(m: Message): Progress
    requires ChunkInv(m)
    decreases |m.buf|, 1
  {
    if m.buf == [] then Progress(Chunk, m)
    else if !m.inChunk then
      var k := NextCrlf(m.buf, m.rpos);
      if k == |m.buf| then Progress(Chunk, m)
      else if k == m.rpos then Progress(Chunk, m.(rpos := k + 2))
      else ChunkLoop(m.(inChunk := true, chunkSize := ChunkSizeOf(m.buf[m.rpos..k]),
                        buf := m.buf[k + 2..], rpos := 0))
    else if m.chunkSize == 0 then LastChunk(m)
    else if m.chunkSize < m.chunkRead then Progress(Spinning, m)
    else AfterData(TakeData(m))
  }

  /** The message behind the CRLF of a chunk. */
  function EndChunk(d: Message): Message
    requires |d.buf| >= 2
  {
    d.(inChunk := false, chunkRead := 0, buf := d.buf[2..])
  }

  /** What follows when the bytes that are there went to the body: either more of the chunk is
      to come, or its CRLF is. */
  function AfterData(d: Message): Progress
    requires ChunkInv(d) && d.inChunk && d.chunkSize > 0 && d.rpos == 0
    decreases |d.buf|, 0
  {
    if d.chunkRead < d.chunkSize || |d.buf| < 2 then Progress(Chunk, d)
    else if IsCrlf(d.buf, 0) then
      ChunkLoop(EndChunk(d))
    else if d.buf[0] == '\r' then Progress(Chunk, d.(rpos := 1))
    else Progress(Chunk, d)
  }

  // ------------------------------------------------------------ whole call

  predicate FreshChunk(m: Message) {
    !m.inChunk && m.chunkSize == -1 && m.chunkRead == 0 && m.body == "" && m.data.None? && m.dataLen == 0
  }

  /** The invariant of a request between calls. */
  predicate Inv(p: State) {
    match p.phase
    case StartLine =>
      && FreshChunk(p.m) && p.m.rpos <= |p.m.buf|
      && p.requestUri == "" && p.configDir == "" && p.verb == -1
      && p.m.headers == [] && p.m.version == HTTP_1_1
    case Headers => FreshChunk(p.m) && p.m.rpos == 0
    case PreBody => FreshChunk(p.m) && p.m.rpos == 0
    case Body => FreshChunk(p.m) && p.m.rpos == 0
    case Chunk => ChunkInv(p.m)
    case Complete => p.m.rpos == 0
    case BadRequest => p.m.rpos <= |p.m.buf|
    case Spinning => p.m.rpos == 0
  }

  /** Only POST and PUT have a body. */
  function PreBodyPhase(p: State): Phase {
    if p.verb != POST && p.verb != PUT then Complete else CheckChunked(p.m.headers)
  }

  /** A length-delimited body whose length has no digit: atoi reads 0. */
  function EmptyBody(m: Message): Message {
    m.(dataLen := 0, data := Some(""))
  }

  function HeaderStage(p: State): State
    requires p.phase == Headers ==> p.m.rpos == 0
  {
    if p.phase != Headers then p
    else var h := HeaderLines(p.m); p.(phase := h.phase, m := h.m)
  }

  function PreBodyStage(p: State): State {
    if p.phase != PreBody then p else p.(phase := PreBodyPhase(p))
  }

  function BodyStage(p: State): State
    requires p.phase == Chunk ==> ChunkInv(p.m)
  {
    if p.phase == Body then p.(phase := Complete, m := EmptyBody(p.m))
    else if p.phase != Chunk then p
    else var c := ChunkLoop(p.m); p.(phase := c.phase, m := c.m)
  }

  function LineStage(p: State): State
    requires p.phase == StartLine ==> p.m.rpos <= |p.m.buf|
  {
    if p.phase == StartLine then StartLineStage(p) else p
  }

  function HeadStage(p: State): (q: State)
    requires Inv(p)
    ensures Inv(q)
  {
    StageInv(p);
    HeaderStage(LineStage(p))
  }

  /** One call of HTTPRequest::parse. */
  function Parse(p: State): (q: State)
    requires Inv(p)
    ensures Inv(q) && q.phase !in {PreBody, Body}
  {
    var k := PreBodyStage(HeadStage(p));
    assert k.phase == Chunk ==> AtRest(ChunkLoop(k.m), |k.m.buf|) by {
      if k.phase == Chunk { ChunkLoopInv(k.m); }
    }
    BodyStage(k)
  }

  /** Bytes arrive. */
  function Feed(p: State, b: string): (q: State)
    ensures Inv(p) ==> Inv(q)
  {
    p.(m := p.m.(buf := p.m.buf + b))
  }

  /** The header section touches neither the chunk fields nor, unless it is refused, the cursor. */
  lemma {:induction false} HeaderLinesInv(m: Message)
    requires m.rpos == 0 && FreshChunk(m)
    ensures FreshChunk(HeaderLines(m).m) && HeaderLines(m).m.rpos <= |HeaderLines(m).m.buf|
    ensures HeaderLines(m).phase in {Headers, PreBody, BadRequest}
    ensures HeaderLines(m).phase != BadRequest ==> HeaderLines(m).m.rpos == 0
    decreases |m.buf|
  {
    var k := NextCrlf(m.buf, 0);
    if 0 < k < |m.buf| && IsHeaderLine(m.buf[..k]) {
      var next := m.(headers := AddHeader(m.headers, m.buf[..k]), buf := m.buf[k + 2..]);
      assert HeaderLines(m) == HeaderLines(next);
      HeaderLinesInv(next);
    }
  }

  /** One round of the header section. */
  lemma HeaderRound(m: Message)
    requires m.rpos == 0
    ensures
      var k := NextCrlf(m.buf, 0);
      HeaderLines(m) ==
        if k == |m.buf| then Progress(Headers, m)
        else if k == 0 then Progress(PreBody, m.(buf := m.buf[2..]))
        else if !IsHeaderLine(m.buf[..k]) then Progress(BadRequest, m.(rpos := k + 2))
        else HeaderLines(m.(headers := AddHeader(m.headers, m.buf[..k]), buf := m.buf[k + 2..]))
  {
    hide AddHeader, IsHeaderLine, NextCrlf, FreshChunk;
  }

  /** One round before a size line. */
  lemma SizeLineRound(m: Message)
    requires ChunkInv(m) && m.buf != [] && !m.inChunk
    ensures
      var k := NextCrlf(m.buf, m.rpos);
      ChunkLoop(m) ==
        if k == |m.buf| then Progress(Chunk, m)
        else if k == m.rpos then Progress(Chunk, m.(rpos := k + 2))
        else ChunkLoop(m.(inChunk := true, chunkSize := ChunkSizeOf(m.buf[m.rpos..k]),
                          buf := m.buf[k + 2..], rpos := 0))
  {
  }

  /** One round inside a chunk with data. */
  lemma DataRound(m: Message)
    requires ChunkInv(m) && m.buf != [] && m.inChunk && m.chunkSize > 0
    ensures
      var d := TakeData(m);
      && ChunkInv(d) && d.inChunk && d.chunkSize == m.chunkSize && |d.buf| <= |m.buf|
      && (d.chunkRead < d.chunkSize ==> d.buf == [] && ChunkLoop(d) == Progress(Chunk, d))
      && (|d.buf| >= 2 ==> ChunkInv(EndChunk(d)))
      && ChunkLoop(m) ==
           if d.chunkRead < d.chunkSize || |d.buf| < 2 then Progress(Chunk, d)
           else if IsCrlf(d.buf, 0) then ChunkLoop(EndChunk(d))
           else if d.buf[0] == '\r' then Progress(Chunk, d.(rpos := 1))
           else Progress(Chunk, d)
  {
    var d := TakeData(m);
    assert ChunkLoop(m) == AfterData(d);
  }

  lemma DataShrinks(m: Message)
    requires ChunkInv(m) && m.buf != [] && m.inChunk && m.chunkSize > 0
    ensures
      var d := TakeData(m);
      && (d.chunkRead < d.chunkSize ==> |d.buf| < |m.buf|)
      && (|d.buf| >= 2 ==> |EndChunk(d).buf| < |m.buf|)
  {
  }

  lemma EmptyRound(m: Message)
    requires ChunkInv(m) && m.buf == []
    ensures ChunkLoop(m) == Progress(Chunk, m)
  {
  }

  lemma OtherRound(m: Message)
    requires ChunkInv(m) && m.buf != [] && m.inChunk && m.chunkSize <= 0
    ensures ChunkLoop(m) == if m.chunkSize == 0 then LastChunk(m) else Progress(Spinning, m)
  {
  }

  lemma ReadStartLineInv(p: State, line: string)
    requires FreshChunk(p.m) && p.m.rpos <= |p.m.buf|
    ensures ReadStartLine(p, line).phase in {Headers, BadRequest} && Inv(ReadStartLine(p, line))
  {
  }

  lemma StageInv(p: State)
    requires Inv(p)
    ensures Inv(LineStage(p)) && Inv(HeaderStage(LineStage(p)))
    ensures p.phase != Body ==> HeaderStage(LineStage(p)).phase != Body
  {
    hide ReadStartLine, HeaderLines, ChunkInv;
    if p.phase == StartLine {
      var k := NextCrlf(p.m.buf, p.m.rpos);
      if p.m.rpos < k < |p.m.buf| {
        ReadStartLineInv(p.(m := p.m.(rpos := k + 2)), p.m.buf[p.m.rpos..k]);
      }
    }
    var q := LineStage(p);
    if q.phase == Headers { HeaderLinesInv(q.m); }
  }

  predicate AtRest(r: Progress, size: nat) {
    && r.phase in {Chunk, Complete, Spinning}
    && (if r.phase == Chunk then ChunkInv(r.m) else r.m.rpos == 0)
    && |r.m.buf| <= size
  }

  /** What a chunk stage leaves behind. */
  lemma {:induction false} ChunkLoopInv(m: Message)
    requires ChunkInv(m)
    ensures AtRest(ChunkLoop(m), |m.buf|)
    decreases |m.buf|, 1
  {
    if m.buf == [] {
    } else if !m.inChunk {
      var k := NextCrlf(m.buf, m.rpos);
      if m.rpos < k < |m.buf| {
        var next := m.(inChunk := true, chunkSize := ChunkSizeOf(m.buf[m.rpos..k]), buf := m.buf[k + 2..], rpos := 0);
        assert ChunkLoop(m) == ChunkLoop(next);
        ChunkLoopInv(next);
      }
    } else if m.chunkSize > 0 {
      assert ChunkLoop(m) == AfterData(TakeData(m));
      AfterDataInv(TakeData(m));
    }
  }

  lemma {:induction false} AfterDataInv(d: Message)
    requires ChunkInv(d) && d.inChunk && d.chunkSize > 0 && d.rpos == 0
    ensures AtRest(AfterData(d), |d.buf|)
    decreases |d.buf|, 0
  {
    if d.chunkRead == d.chunkSize && |d.buf| >= 2 && IsCrlf(d.buf, 0) {
      var next := EndChunk(d);
      assert AfterData(d) == ChunkLoop(next);
      ChunkLoopInv(next);
    }
  }
}
