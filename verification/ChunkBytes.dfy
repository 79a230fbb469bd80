/** What the chunk decoder makes of any bytes at all behind a head: where it completes, where it
    stalls and where it never returns, told from the bytes. */
module ChunkBytes {
  import opened Wrappers
  import opened Text
  import opened RequestSpec
  import opened Segmentation
  import opened Chunked
  import opened StartLines

  /** A chunk as the decoder takes it: any line of which strtol reads a positive size, and data of
      that size. */
  datatype Loose = Loose(line: string, data: string)

  predicate IsLoose(c: Loose) {
    c.line != "" && !HasCrlf(c.line) && ChunkSizeOf(c.line) == |c.data| > 0
  }

  predicate AllLoose(cs: seq<Loose>) { forall i :: 0 <= i < |cs| ==> IsLoose(cs[i]) }

  function PrintLoose(c: Loose): string { c.line + CRLF + c.data + CRLF }

  function PrintAll(cs: seq<Loose>): string {
    if cs == [] then "" else PrintLoose(cs[0]) + PrintAll(cs[1..])
  }

  function LooseData(cs: seq<Loose>): string {
    if cs == [] then "" else cs[0].data + LooseData(cs[1..])
  }

  // --------------------------------------------------- the bytes behind them

  /** A complete, non-empty first line. */
  predicate HasSizeLine(t: string) { 0 < NextCrlf(t, 0) < |t| }

  function SizeOf(t: string): int
    requires HasSizeLine(t)
  {
    ChunkSizeOf(t[..NextCrlf(t, 0)])
  }

  function Behind(t: string): string
    requires HasSizeLine(t)
  {
    t[NextCrlf(t, 0) + 2..]
  }

  /** A whole chunk stands in front. */
  predicate ChunkFirst(t: string) {
    HasSizeLine(t) && SizeOf(t) > 0 && IsCrlf(Behind(t), SizeOf(t))
  }

  /** The last chunk and the blank line that ends the body. */
  predicate LastTail(t: string) {
    HasSizeLine(t) && SizeOf(t) == 0 && IsCrlf(Behind(t), 0)
  }

  /** A blank line where a size is due, a last chunk with anything but CR behind it, or chunk data
      with a CR that LF does not follow. */
  predicate StallTail(t: string) {
    || IsCrlf(t, 0)
    || (HasSizeLine(t) && SizeOf(t) == 0 && Behind(t) != "" && Behind(t)[0] != '\r')
    || (HasSizeLine(t) && SizeOf(t) > 0 && SizeOf(t) + 1 < |Behind(t)|
        && Behind(t)[SizeOf(t)] == '\r' && Behind(t)[SizeOf(t) + 1] != '\n')
  }

  /** A negative size with at least one byte behind its line. */
  predicate SpinTail(t: string) {
    HasSizeLine(t) && SizeOf(t) < 0 && Behind(t) != ""
  }

  ghost predicate Ends(body: string) {
    exists cs, t :: AllLoose(cs) && LastTail(t) && body == PrintAll(cs) + t
  }

  ghost predicate Stalls(body: string) {
    exists cs, t :: AllLoose(cs) && StallTail(t) && body == PrintAll(cs) + t
  }

  ghost predicate Spins(body: string) {
    exists cs, t :: AllLoose(cs) && SpinTail(t) && body == PrintAll(cs) + t
  }

  // ------------------------------------------------------------- one chunk

  lemma SizeLineIs(line: string, rest: string)
    requires line != "" && !HasCrlf(line)
    ensures var t := line + CRLF + rest;
      HasSizeLine(t) && SizeOf(t) == ChunkSizeOf(line) && Behind(t) == rest && NextCrlf(t, 0) == |line|
  {
    var t := line + CRLF + rest;
    LineEndOfLine(line, rest);
    assert t[..|line|] == line && t[|line| + 2..] == rest;
  }

  lemma SizeLineRead(m: Message)
    requires AtSizeLine(m) && HasSizeLine(m.buf)
    ensures ChunkInv(InChunk(m, SizeOf(m.buf), Behind(m.buf)))
    ensures ChunkLoop(m) == ChunkLoop(InChunk(m, SizeOf(m.buf), Behind(m.buf)))
  {
    hide RequestSpec.ChunkLoop, RequestSpec.ChunkSizeOf;
    SizeLineRound(m);
    assert m.buf[0..NextCrlf(m.buf, 0)] == m.buf[..NextCrlf(m.buf, 0)];
  }

  lemma FirstChunk(m: Message)
    requires AtSizeLine(m) && ChunkFirst(m.buf)
    ensures
      var b, n := Behind(m.buf), SizeOf(m.buf);
      AtSizeLine(AddData(m, b[..n], b[n + 2..])) && ChunkLoop(m) == ChunkLoop(AddData(m, b[..n], b[n + 2..]))
  {
    hide RequestSpec.ChunkLoop, RequestSpec.ChunkSizeOf;
    SizeLineRead(m);
    var b, n := Behind(m.buf), SizeOf(m.buf);
    assert b == b[..n] + CRLF + b[n + 2..];
    PieceData(InChunk(m, n, b), b[..n], b[n + 2..]);
  }

  /** What a call does when no whole chunk stands in front. */
  lemma TailVerdict(m: Message)
    requires AtSizeLine(m) && !ChunkFirst(m.buf)
    ensures
      var c := ChunkLoop(m);
      && (c.phase == Complete <==> LastTail(m.buf))
      && (c.phase == Spinning <==> SpinTail(m.buf))
      && (c.phase == Chunk && c.m.rpos != 0 <==> StallTail(m.buf))
      && c.phase in {Chunk, Complete, Spinning}
  {
    hide RequestSpec.ChunkLoop, RequestSpec.ChunkSizeOf;
    if m.buf == [] {
      EmptyRound(m);
    } else if !HasSizeLine(m.buf) {
      SizeLineRound(m);
      FirstIsBlank(m.buf);
    } else {
      SizeLineRead(m);
      NotBlank(m.buf);
      var d := InChunk(m, SizeOf(m.buf), Behind(m.buf));
      if d.buf == [] { EmptyRound(d); } else if d.chunkSize > 0 { DataVerdict(d); } else { OtherRound(d); }
    }
  }

  lemma FirstIsBlank(t: string)
    ensures NextCrlf(t, 0) == 0 < |t| <==> IsCrlf(t, 0)
  {
  }

  lemma NotBlank(t: string)
    requires HasSizeLine(t)
    ensures !IsCrlf(t, 0)
  {
  }

  lemma DataVerdict(d: Message)
    requires ChunkInv(d) && d.inChunk && d.rpos == 0 && d.chunkRead == 0 && d.chunkSize > 0 && d.buf != []
    requires !IsCrlf(d.buf, d.chunkSize)
    ensures
      var c, n := ChunkLoop(d), d.chunkSize;
      && c.phase == Chunk
      && (c.m.rpos != 0 <==> n + 1 < |d.buf| && d.buf[n] == '\r' && d.buf[n + 1] != '\n')
  {
    hide RequestSpec.ChunkLoop;
    DataRound(d);
  }

  // --------------------------------------------------------- the whole body

  lemma OneChunk(m: Message, c: Loose, tail: string)
    requires AtSizeLine(m) && IsLoose(c) && m.buf == PrintLoose(c) + tail
    ensures AtSizeLine(AddData(m, c.data, tail)) && ChunkLoop(m) == ChunkLoop(AddData(m, c.data, tail))
  {
    hide RequestSpec.ChunkLoop, AtSizeLine, IsLoose, ChunkFirst, SizeOf;
    assert m.buf == c.line + CRLF + (c.data + CRLF + tail);
    ChunkInFront(c, tail);
    FirstChunk(m);
  }

  /** Whole chunks are decoded one after the other. */
  lemma {:induction false} Through(m: Message, cs: seq<Loose>, t: string) returns (e: Message)
    requires AtSizeLine(m) && AllLoose(cs) && m.buf == PrintAll(cs) + t
    ensures AtSizeLine(e) && e.buf == t && e.body == m.body + LooseData(cs) && ChunkLoop(m) == ChunkLoop(e)
    ensures e == m.(chunkSize := e.chunkSize, body := e.body, dataLen := e.dataLen, buf := t)
    decreases |cs|
  {
    hide RequestSpec.ChunkLoop, RequestSpec.ChunkInv, IsLoose, PrintLoose;
    if cs == [] {
      assert m.buf == t && m.body + "" == m.body;
      e := m;
    } else {
      var c, tail := cs[0], PrintAll(cs[1..]) + t;
      assert m.buf == PrintLoose(c) + tail;
      OneChunk(m, c, tail);
      e := Through(AddData(m, c.data, tail), cs[1..], t);
      assert m.body + c.data + LooseData(cs[1..]) == m.body + (c.data + LooseData(cs[1..]));
    }
  }

  lemma ChunkInFront(c: Loose, tail: string)
    requires IsLoose(c)
    ensures
      var t := c.line + CRLF + (c.data + CRLF + tail);
      && ChunkFirst(t) && SizeOf(t) == |c.data|
      && Behind(t)[..|c.data|] == c.data && Behind(t)[|c.data| + 2..] == tail
  {
    hide RequestSpec.ChunkSizeOf, NextCrlf, HasCrlf;
    var b := c.data + CRLF + tail;
    SizeLineIs(c.line, b);
    assert b[..|c.data|] == c.data && b[|c.data| + 2..] == tail && IsCrlf(b, |c.data|);
  }

  lemma SplitFirst(body: string) returns (c: Loose, tail: string)
    requires ChunkFirst(body)
    ensures IsLoose(c) && body == PrintLoose(c) + tail
  {
    hide RequestSpec.ChunkSizeOf, HasCrlf;
    var k, b, n := NextCrlf(body, 0), Behind(body), SizeOf(body);
    c, tail := Loose(body[..k], b[..n]), b[n + 2..];
    Heads.LineIsLine(body);
    assert b == c.data + CRLF + tail;
    assert body == c.line + CRLF + b;
    assert body == PrintLoose(c) + tail;
  }

  /** Any bytes are whole chunks and a rest with no whole chunk in front. */
  lemma {:induction false} TakeApart(body: string) returns (cs: seq<Loose>, t: string)
    ensures AllLoose(cs) && body == PrintAll(cs) + t && !ChunkFirst(t)
    decreases |body|
  {
    hide ChunkFirst, IsLoose;
    if !ChunkFirst(body) {
      cs, t := [], body;
      assert "" + body == body;
    } else {
      var c, tail := SplitFirst(body);
      cs, t := TakeApart(tail);
      assert ([c] + cs)[1..] == cs;
      assert PrintLoose(c) + (PrintAll(cs) + t) == PrintLoose(c) + PrintAll(cs) + t;
      cs := [c] + cs;
    }
  }

  lemma TailsAreTails(t: string)
    requires LastTail(t) || StallTail(t) || SpinTail(t)
    ensures !ChunkFirst(t)
  {
    hide RequestSpec.ChunkSizeOf;
    if HasSizeLine(t) { NotBlank(t); }
  }

  /** The three ways a chunk stage can go wrong or right, each exactly on the bytes. */
  lemma BodyVerdict(m: Message)
    requires AtSizeLine(m)
    ensures
      var c := ChunkLoop(m);
      && (c.phase == Complete <==> Ends(m.buf))
      && (c.phase == Spinning <==> Spins(m.buf))
      && (c.phase == Chunk && c.m.rpos != 0 <==> Stalls(m.buf))
  {
    hide RequestSpec.ChunkLoop, RequestSpec.ChunkInv, ChunkFirst, LastTail, StallTail, SpinTail, AllLoose, PrintAll;
    var cs, t := TakeApart(m.buf);
    var e := Through(m, cs, t);
    TailVerdict(e);
    forall ds, u | AllLoose(ds) && (LastTail(u) || StallTail(u) || SpinTail(u)) && m.buf == PrintAll(ds) + u
      ensures LastTail(u) ==> ChunkLoop(m).phase == Complete
      ensures SpinTail(u) ==> ChunkLoop(m).phase == Spinning
      ensures StallTail(u) ==> ChunkLoop(m).phase == Chunk && ChunkLoop(m).m.rpos != 0
    {
      TailsAreTails(u);
      var f := Through(m, ds, u);
      TailVerdict(f);
    }
  }

  // ------------------------------------------------------ the whole request

  /** Behind a head that announces chunks the bytes of the body decide alone: the request is over,
      the call never returns, or it stalls. */
  lemma ChunkedVerdict(head: string, body: string)
    requires IsChunkedHead(head)
    ensures Parse(Fresh(head + body)).phase == Complete <==> Ends(body)
    ensures Parse(Fresh(head + body)).phase == Spinning <==> Spins(body)
    ensures !Calm(Parse(Fresh(head + body))) <==> Stalls(body)
  {
    hide RequestSpec.Parse, RequestSpec.HeadStage, IsChunkedHead, RequestSpec.ChunkLoop, Ends, Spins, Stalls;
    BehindHead(head, body);
    var m := HeadStage(Fresh(head)).m.(buf := body);
    BodyVerdict(m);
    ChunkLoopInv(m);
  }

  /** What a completed body decodes to, and what it leaves. */
  lemma LooseDecoded(head: string, cs: seq<Loose>, t: string)
    requires IsChunkedHead(head) && AllLoose(cs) && LastTail(t)
    ensures
      var q := Parse(Fresh(head + (PrintAll(cs) + t)));
      && q.phase == Complete && q.m.data == Some(LooseData(cs)) && q.m.dataLen == |LooseData(cs)|
      && q.m.buf == Behind(t)[2..]
  {
    hide RequestSpec.HeadStage, RequestSpec.ChunkLoop, IsChunkedHead, AllLoose, PrintAll, LooseData, ChunkSizeOf;
    var body := PrintAll(cs) + t;
    BehindHead(head, body);
    var e := Through(HeadStage(Fresh(head)).m.(buf := body), cs, t);
    assert "" + LooseData(cs) == LooseData(cs);
    SizeLineRead(e);
    OtherRound(InChunk(e, 0, Behind(t)));
  }

  /** The law on the bytes of a chunked request: every cut is invisible to everything that can
      follow if and only if the body does not stall. */
  lemma ChunkedLaw(head: string, body: string)
    requires IsChunkedHead(head) && |head| + |body| + 2 <= MAX_BUFFER
    ensures CutsAreInvisible(Fresh(""), head + body) <==> !Stalls(body)
  {
    hide RequestSpec.Parse, RequestSpec.Inv, IsChunkedHead, Stalls, Spins, Ends, Calm, CutsAreInvisible;
    FreshIsSound();
    FeedFresh(head + body);
    SegmentationLaw(Fresh(""), head + body);
    ChunkedVerdict(head, body);
  }

  // -------------------------------------------------------------- all streams

  /** A chunked body lies behind the head of the stream, and it stalls. */
  ghost predicate BodyStalls(s: string) {
    exists head, body :: IsChunkedHead(head) && Stalls(body) && s == head + body
  }

  ghost predicate BodySpins(s: string) {
    exists head, body :: IsChunkedHead(head) && Spins(body) && s == head + body
  }

  /** A stream whose body is being decoded has a head that announces it. */
  lemma BodyFound(s: string) returns (head: string, body: string)
    requires Parse(Fresh(s)).phase in {Chunk, Spinning}
    ensures IsChunkedHead(head) && s == head + body
  {
    hide RequestSpec.Parse, HeadStage, PreBodyPhase, IsChunkedHead, AnnouncesChunks, Heads.PrintHead,
        Stored;
    FreshIsSound();
    PassedHead(s);
    var h := HeadStage(Fresh(s));
    var name, target, lines := Heads.HeadFound(s);
    head, body := Heads.PrintHead(name, target, lines), h.m.buf;
    Heads.HeadRead(name, target, lines, body);
    BodyAnnounced(name, lines, h);
    IsOne(name, target, lines);
  }

  lemma PassedHead(s: string)
    requires Parse(Fresh(s)).phase in {Chunk, Spinning}
    ensures HeadStage(Fresh(s)).phase == PreBody && PreBodyPhase(HeadStage(Fresh(s))) == Chunk
  {
    hide HeaderLines, RequestSpec.ReadStartLine, RequestSpec.ChunkLoop, HeaderValue;
    var p := Fresh(s);
    StageInv(p);
    var k := NextCrlf(s, 0);
    if 0 < k < |s| { ReadStartLineInv(p.(m := p.m.(rpos := k + 2)), s[0..k]); }
    var a := LineStage(p);
    if a.phase == Headers { HeaderLinesInv(a.m); }
  }

  /** The law on bytes, for every stream: all cuts are invisible to everything that can follow if
      and only if the stream neither begins with a blank line nor has a chunked body that
      stalls. */
  lemma StreamLaw(s: string)
    requires |s| + 2 <= MAX_BUFFER
    ensures CutsAreInvisible(Fresh(""), s) <==> !IsCrlf(s, 0) && !BodyStalls(s)
  {
    hide RequestSpec.Parse, RequestSpec.Inv, IsChunkedHead, Stalls, CutsAreInvisible, IsCrlf;
    FreshIsSound();
    FeedFresh(s);
    SegmentationLaw(Fresh(""), s);
    if IsCrlf(s, 0) { BlankLineStalls(s); }
    forall head, body | IsChunkedHead(head) && s == head + body
      ensures Calm(Parse(Fresh(s))) <==> !Stalls(body)
    {
      ChunkedVerdict(head, body);
    }
    if !Calm(Parse(Fresh(s))) && !IsCrlf(s, 0) {
      StallSource(s);
      var head, body := BodyFound(s);
    }
  }

  /** The endless loop on bytes, for every stream. */
  lemma SpinsOnBytes(s: string)
    ensures Parse(Fresh(s)).phase == Spinning <==> BodySpins(s)
  {
    hide RequestSpec.Parse, RequestSpec.Inv, IsChunkedHead, Spins;
    FreshIsSound();
    forall head, body | IsChunkedHead(head) && s == head + body
      ensures Parse(Fresh(s)).phase == Spinning <==> Spins(body)
    {
      ChunkedVerdict(head, body);
    }
    if Parse(Fresh(s)).phase == Spinning {
      var head, body := BodyFound(s);
    }
  }

  /** What may stand behind a head for the request to be complete: anything when the method has no
      body; else a chunked body, or anything behind a Content-Length without digits. */
  ghost predicate Completes(name: string, lines: seq<string>, rest: string) {
    if !HasBody(name) then true
    else if AnnouncesChunks(name, lines) then Ends(rest)
    else OddLength(lines)
  }

  /** A body that no header frames, or one of a length with a digit in it. */
  ghost predicate Unframed(name: string, lines: seq<string>) {
    HasBody(name) && !AnnouncesChunks(name, lines) && !OddLength(lines)
  }

  lemma HeadDecides(name: string, target: string, lines: seq<string>, rest: string)
    requires Heads.IsHead(name, target, lines)
    ensures var q := Parse(Fresh(Heads.PrintHead(name, target, lines) + rest));
      && (q.phase == Complete <==> Completes(name, lines, rest))
      && (q.phase == BadRequest <==> Unframed(name, lines))
      && (HasBody(name) && !AnnouncesChunks(name, lines) && OddLength(lines) ==>
            q.m.data == Some("") && q.m.dataLen == 0 && q.m.buf == rest)
  {
    hide HeadStage, RequestSpec.ChunkLoop, HeaderValue, CheckChunked, PreBodyPhase, Heads.PrintHead, Heads.ReadLines,
      Heads.AreLines, MethodId, Ends, IsChunkedHead, AnnouncesChunks, OddLength, Stored;
    var head := Heads.PrintHead(name, target, lines);
    Heads.HeadRead(name, target, lines, rest);
    BodyAnnounced(name, lines, HeadStage(Fresh(head + rest)));
    if HasBody(name) && AnnouncesChunks(name, lines) {
      IsOne(name, target, lines);
      ChunkedVerdict(head, rest);
      ChunkStays(HeadStage(Fresh(head + rest)));
    }
  }

  lemma ChunkStays(h: State)
    requires Inv(h) && h.phase == PreBody && PreBodyPhase(h) == Chunk
    ensures BodyStage(PreBodyStage(h)).phase != BadRequest
  {
    hide RequestSpec.ChunkLoop, HeaderValue;
    ChunkLoopInv(h.m);
  }

  /** A POST or PUT whose header section names neither a chunked coding nor a length is refused. */
  lemma NoFraming(name: string, target: string, lines: seq<string>, rest: string)
    requires Heads.IsHead(name, target, lines) && HasBody(name)
    requires Heads.NotGiven(lines, "Transfer-Encoding") && Heads.NotGiven(lines, "transfer-encoding")
    requires Heads.NotGiven(lines, "Content-Length") && Heads.NotGiven(lines, "content-length")
    ensures Parse(Fresh(Heads.PrintHead(name, target, lines) + rest)).phase == BadRequest
  {
    hide RequestSpec.Parse, RequestSpec.Inv, Heads.NotGiven, Heads.Given, Heads.IsHead, Heads.PrintHead;
    FreshIsSound();
    forall key, v ensures Heads.Given(lines, key, v) ==> !Heads.NotGiven(lines, key) {
      if Heads.Given(lines, key, v) { Heads.GivenOnce(lines, key, v, v); }
    }
    HeadDecides(name, target, lines, rest);
  }

  lemma CompleteHasHead(s: string)
    requires Parse(Fresh(s)).phase == Complete
    ensures HeadStage(Fresh(s)).phase == PreBody
  {
    hide HeaderLines, RequestSpec.ReadStartLine, RequestSpec.ChunkLoop, CheckChunked;
    var p, k := Fresh(s), NextCrlf(s, 0);
    StageInv(p);
    if 0 < k < |s| { ReadStartLineInv(p.(m := p.m.(rpos := k + 2)), s[0..k]); }
    if LineStage(p).phase == Headers { HeaderLinesInv(LineStage(p).m); }
  }

  /** Which streams make a complete request, on bytes. */
  lemma CompleteOnBytes(s: string)
    ensures Parse(Fresh(s)).phase == Complete <==>
      exists name, target, lines, rest ::
        && Heads.IsHead(name, target, lines) && Completes(name, lines, rest)
        && s == Heads.PrintHead(name, target, lines) + rest
  {
    hide RequestSpec.Parse, RequestSpec.Inv, HeadStage, Completes, Heads.PrintHead, Heads.IsHead;
    FreshIsSound();
    forall name, target, lines, rest | Heads.IsHead(name, target, lines) && s == Heads.PrintHead(name, target,
        lines) + rest
      ensures Parse(Fresh(s)).phase == Complete <==> Completes(name, lines, rest)
    {
      HeadDecides(name, target, lines, rest);
    }
    if Parse(Fresh(s)).phase == Complete {
      CompleteHasHead(s);
      var name, target, lines := Heads.HeadFound(s);
    }
  }
}
