/** How the request parser depends on the way a byte stream is cut into segments. */
module Segmentation {
  import opened Text
  import opened CLib
  import opened RequestSpec

  /** Nothing that arrives later changes the phase. */
  predicate Finished(p: State) {
    p.phase == Complete || p.phase == BadRequest || p.phase == Spinning
  }

  /** Where a call may stop without having decided on bytes that it kept: the cursor is at
      the start of the buffer, or the request is over. */
  predicate Calm(p: State) {
    p.m.rpos == 0 || Finished(p)
  }

  function More(m: Message, b: string): Message {
    m.(buf := m.buf + b)
  }

  // ------------------------------------------------- the stages, one by one

  lemma ReadStartLineMore(p: State, line: string, b: string)
    requires p.m.rpos <= |p.m.buf|
    ensures ReadStartLine(Feed(p, b), line) == Feed(ReadStartLine(p, line), b)
  {
    assert (p.m.buf + b)[p.m.rpos..] == p.m.buf[p.m.rpos..] + b;
  }

  lemma StartLineMore(p: State, b: string)
    requires p.m.rpos <= |p.m.buf| && NextCrlf(p.m.buf, p.m.rpos) < |p.m.buf|
    ensures StartLineStage(Feed(p, b)) == Feed(StartLineStage(p), b)
  {
    hide RequestSpec.ReadStartLine;
    LineEndStays(p.m.buf, b, p.m.rpos);
    var k := NextCrlf(p.m.buf, p.m.rpos);
    var q := p.(m := p.m.(rpos := k + 2));
    assert Feed(p, b).(m := Feed(p, b).m.(rpos := k + 2)) == Feed(q, b);
    if k != p.m.rpos {
      var line := p.m.buf[p.m.rpos..k];
      assert (p.m.buf + b)[p.m.rpos..k] == line;
      assert StartLineStage(p) == ReadStartLine(q, line);
      assert StartLineStage(Feed(p, b)) == ReadStartLine(Feed(q, b), line);
      ReadStartLineMore(q, line, b);
    }
  }

  /** A header section that is over is not reopened, and one that is not over goes on from
      where the last call left it. */
  lemma {:induction false} HeaderLinesMore(m: Message, b: string)
    requires m.rpos == 0
    ensures HeaderLines(m).phase == Headers ==>
      HeaderLines(m).m.rpos == 0 && HeaderLines(More(m, b)) == HeaderLines(More(HeaderLines(m).m, b))
    ensures HeaderLines(m).phase != Headers ==>
      HeaderLines(More(m, b)) == Progress(HeaderLines(m).phase, More(HeaderLines(m).m, b))
    decreases |m.buf|
  {
    hide RequestSpec.AddHeader, RequestSpec.IsHeaderLine;
    var k := NextCrlf(m.buf, 0);
    if k < |m.buf| {
      LineEndStays(m.buf, b, 0);
      assert (m.buf + b)[..k] == m.buf[..k];
      assert (m.buf + b)[k + 2..] == m.buf[k + 2..] + b;
      if k != 0 && IsHeaderLine(m.buf[..k]) {
        var next := m.(headers := AddHeader(m.headers, m.buf[..k]), buf := m.buf[k + 2..]);
        assert HeaderLines(m) == HeaderLines(next);
        HeaderLinesMore(next, b);
        assert More(m, b).(headers := AddHeader(m.headers, m.buf[..k]), buf := (m.buf + b)[k + 2..]) == More(next, b);
      }
    }
  }

  /** `r` is how the chunk decoder stopped; `all` is how it stops when `b` had been there from
      the start.  With the cursor at 0 the decoder goes on as if it had never stopped; in
      every other case `b` is not looked at. */
  ghost predicate Resumes(r: Progress, all: Progress, b: string) {
    if r.phase == Chunk && r.m.rpos == 0 then ChunkInv(More(r.m, b)) && all == ChunkLoop(More(r.m, b))
    else all == Progress(r.phase, More(r.m, b))
  }

  /** The chunk decoder can be resumed when it stopped with the cursor at 0. */
  lemma {:induction false} ChunkLoopMore(m: Message, b: string)
    requires ChunkInv(m) && m.rpos == 0
    ensures ChunkInv(More(m, b)) && Resumes(ChunkLoop(m), ChunkLoop(More(m, b)), b)
    decreases |m.buf|, 1
  {
    if m.buf == [] {
    } else if !m.inChunk {
      SizeLineMore(m, b);
    } else if m.chunkSize == 0 {
      LastChunkMore(m, b);
    } else if m.chunkSize > 0 {
      assert ChunkLoop(m) == AfterData(TakeData(m));
      assert ChunkLoop(More(m, b)) == AfterData(TakeData(More(m, b)));
      AfterDataMore(m, b);
    }
  }

  lemma {:induction false} SizeLineMore(m: Message, b: string)
    requires ChunkInv(m) && m.rpos == 0 && m.buf != [] && !m.inChunk
    ensures Resumes(ChunkLoop(m), ChunkLoop(More(m, b)), b)
    decreases |m.buf|, 0
  {
    var k := NextCrlf(m.buf, 0);
    if k < |m.buf| {
      LineEndStays(m.buf, b, 0);
      if k != 0 {
        assert m.buf[0..k] == (m.buf + b)[0..k];
        assert (m.buf + b)[k + 2..] == m.buf[k + 2..] + b;
        var next := m.(inChunk := true, chunkSize := ChunkSizeOf(m.buf[0..k]), buf := m.buf[k + 2..]);
        assert ChunkLoop(m) == ChunkLoop(next);
        assert ChunkLoop(More(m, b)) == ChunkLoop(More(next, b));
        ChunkLoopMore(next, b);
      }
    }
  }

  lemma LastChunkMore(m: Message, b: string)
    requires ChunkInv(m) && m.rpos == 0 && m.buf != [] && m.inChunk && m.chunkSize == 0
    ensures Resumes(ChunkLoop(m), ChunkLoop(More(m, b)), b)
  {
    assert (m.buf + b)[0] == m.buf[0];
    if IsCrlf(m.buf, 0) {
      assert (m.buf + b)[2..] == m.buf[2..] + b;
    }
  }

  lemma {:induction false} AfterDataMore(m: Message, b: string)
    requires ChunkInv(m) && m.rpos == 0 && m.buf != [] && m.inChunk && m.chunkSize > 0
    ensures Resumes(AfterData(TakeData(m)), AfterData(TakeData(More(m, b))), b)
    decreases |m.buf|, 0
  {
    var d := TakeData(m);
    if d.chunkRead < d.chunkSize || |d.buf| < 2 {
      TakeDataTwice(m, b);
      WaitForData(d, TakeData(More(m, b)), b);
      if d.buf + b == [] {
        assert b == [] && m.buf + b == m.buf;
      }
    } else {
      TakeDataAll(m, b);
      if IsCrlf(d.buf, 0) {
        var next := EndChunk(d);
        ChunkEndMore(d, next, b);
        ChunkLoopMore(next, b);
      } else {
        BadChunkEndMore(d, b);
      }
    }
  }

  lemma WaitForData(d: Message, e: Message, b: string)
    requires ChunkInv(d) && d.inChunk && d.chunkSize > 0 && d.rpos == 0
    requires d.chunkRead < d.chunkSize || |d.buf| < 2
    requires e == TakeData(More(d, b))
    ensures d.buf + b != [] ==> Resumes(AfterData(d), AfterData(e), b)
    ensures e == d && b == [] ==> Resumes(AfterData(d), AfterData(e), b)
  {
    assert AfterData(d) == Progress(Chunk, d);
  }

  lemma ChunkEndMore(d: Message, next: Message, b: string)
    requires ChunkInv(d) && d.inChunk && d.chunkSize > 0 && d.rpos == 0
    requires d.chunkRead == d.chunkSize && IsCrlf(d.buf, 0)
    requires next == EndChunk(d)
    ensures AfterData(d) == ChunkLoop(next)
    ensures AfterData(More(d, b)) == ChunkLoop(More(next, b))
  {
    assert (d.buf + b)[2..] == d.buf[2..] + b;
  }

  lemma LoopTakes(m: Message)
    requires ChunkInv(m) && m.inChunk && m.chunkSize > 0 && m.buf != []
    ensures ChunkInv(TakeData(m)) && TakeData(m).rpos == 0 && ChunkLoop(m) == AfterData(TakeData(m))
  {
  }

  lemma BadEnd(d: Message)
    requires ChunkInv(d) && d.inChunk && d.chunkSize > 0 && d.rpos == 0
    requires d.chunkRead == d.chunkSize && |d.buf| >= 2 && !IsCrlf(d.buf, 0)
    ensures AfterData(d) == Progress(Chunk, d.(rpos := if d.buf[0] == '\r' then 1 else 0))
  {
  }

  lemma BadChunkEndMore(d: Message, b: string)
    requires ChunkInv(d) && d.inChunk && d.chunkSize > 0 && d.rpos == 0
    requires d.chunkRead == d.chunkSize && |d.buf| >= 2 && !IsCrlf(d.buf, 0)
    ensures Resumes(AfterData(d), AfterData(More(d, b)), b)
  {
    hide RequestSpec.ChunkLoop, RequestSpec.AfterData;
    var f := More(d, b);
    assert f.buf[0] == d.buf[0] && f.buf[1] == d.buf[1];
    BadEnd(d);
    BadEnd(f);
    if d.buf[0] != '\r' {
      assert f.body + f.buf[..0] == f.body;
      LoopTakes(f);
    }
  }

  /** Taking what is there and later what came in since is taking all of it at once. */
  lemma TakeDataTwice(m: Message, b: string)
    requires ChunkInv(m) && m.rpos == 0 && m.inChunk && m.chunkSize > 0
    ensures TakeData(More(TakeData(m), b)) == TakeData(More(m, b))
  {
    hide RequestSpec.Take, RequestSpec.Available;
    AvailableTwice(m, b);
    TakeTwice(m, b, Available(m), Available(More(TakeData(m), b)));
  }

  lemma AvailableTwice(m: Message, b: string)
    requires ChunkInv(m) && m.rpos == 0 && m.inChunk && m.chunkSize > 0
    ensures
      var n, d := Available(m), TakeData(m);
      && n <= |m.buf| && d.rpos == 0 && d.chunkRead <= d.chunkSize
      && Available(More(m, b)) == n + Available(More(d, b)) <= |m.buf + b|
      && (n == |m.buf| || Available(More(d, b)) == 0)
  {
  }

  lemma TakeTwice(m: Message, b: string, n: nat, k: nat)
    requires m.rpos == 0 && n <= |m.buf| && n + k <= |m.buf + b|
    requires n == |m.buf| || k == 0
    ensures Take(More(Take(m, n), b), k) == Take(More(m, b), n + k)
  {
    SplitTwice(m.body, m.buf, b, n, k);
    var one, two := Take(More(Take(m, n), b), k), Take(More(m, b), n + k);
    assert one.body == two.body && one.buf == two.buf && one.dataLen == two.dataLen;
  }

  lemma SplitTwice(body: string, s: string, b: string, n: nat, k: nat)
    requires n <= |s| && n + k <= |s + b| && (n == |s| || k == 0)
    ensures body + s[..n] + (s[n..] + b)[..k] == body + (s + b)[..n + k]
    ensures (s[n..] + b)[k..] == (s + b)[n + k..]
  {
    assert s[..n] + (s[n..] + b)[..k] == (s + b)[..n + k];
    assert body + s[..n] + (s[n..] + b)[..k] == body + (s[..n] + (s[n..] + b)[..k]);
  }

  lemma TakeDataAll(m: Message, b: string)
    requires ChunkInv(m) && m.rpos == 0 && m.inChunk && m.chunkSize > 0
    requires TakeData(m).chunkRead == m.chunkSize
    ensures TakeData(More(m, b)) == More(TakeData(m), b)
  {
    var n := m.chunkSize - m.chunkRead;
    assert (m.buf + b)[..n] == m.buf[..n];
    assert (m.buf + b)[n..] == m.buf[n..] + b;
  }

  // --------------------------------------------------------- the whole call

  function Tail(h: State): State
    requires Inv(h)
  {
    BodyStage(PreBodyStage(h))
  }

  lemma TailMore(h: State, b: string)
    requires Inv(h) && h.phase != StartLine && h.phase != Headers && Calm(h)
    ensures Inv(Feed(h, b)) && Inv(Tail(h))
    ensures Tail(h).phase !in {StartLine, Headers, PreBody, Body}
    ensures Tail(h).phase == Chunk && Tail(h).m.rpos == 0 ==>
      Inv(Feed(Tail(h), b)) && Tail(Feed(h, b)) == Tail(Feed(Tail(h), b))
    ensures Tail(h).phase != Chunk || Tail(h).m.rpos != 0 ==> Tail(Feed(h, b)) == Feed(Tail(h), b)
  {
    hide RequestSpec.ChunkLoop;
    var k := PreBodyStage(h);
    assert PreBodyStage(Feed(h, b)) == Feed(k, b);
    if k.phase == Chunk {
      ChunkLoopInv(k.m);
      ChunkLoopMore(k.m, b);
      assert Feed(k, b).m == More(k.m, b);
    }
  }

  /** `h` is where the head of a request stands; `all` is where it would stand with `b` in the
      buffer too. */
  ghost predicate HeadResumes(p: State, h: State, all: State, b: string) {
    if h.phase == StartLine && h.m.rpos == 0 then h == p
    else if h.phase == Headers then Inv(h) && Inv(Feed(h, b)) && all == HeaderStage(Feed(h, b))
    else all == Feed(h, b) && (h.phase == StartLine || Calm(h))
  }

  lemma HeadStageMore(p: State, b: string)
    requires Inv(p) && p.m.rpos == 0 && Inv(Feed(p, b))
    ensures HeadResumes(p, HeadStage(p), HeadStage(Feed(p, b)), b)
  {
    var a := LineStage(p);
    StageInv(p);
    if p.phase == StartLine {
      if NextCrlf(p.m.buf, 0) < |p.m.buf| {
        StartLineMore(p, b);
        HeaderStageMore(p, a, b);
      }
    } else {
      HeaderStageMore(p, a, b);
    }
  }

  lemma HeaderStageMore(p: State, a: State, b: string)
    requires Inv(a) && (a.phase == StartLine ==> a.m.rpos != 0)
    requires a.phase != BadRequest ==> a.m.rpos == 0 || a.phase == StartLine
    ensures HeadResumes(p, HeaderStage(a), HeaderStage(Feed(a, b)), b)
  {
    if a.phase == Headers {
      HeaderLinesInv(a.m);
      HeaderLinesMore(a.m, b);
      assert Feed(a, b).m == More(a.m, b);
    }
  }

  /** One call of parse, and what it would have done with more bytes in the buffer. */
  lemma ParseMore(p: State, b: string)
    requires Inv(p) && p.m.rpos == 0
    ensures Calm(Parse(p)) ==> Parse(Feed(p, b)) == Parse(Feed(Parse(p), b))
    ensures Finished(Parse(p)) || !Calm(Parse(p)) ==> Parse(Feed(p, b)) == Feed(Parse(p), b)
  {
    hide RequestSpec.HeaderLines, RequestSpec.ReadStartLine, RequestSpec.ChunkLoop, RequestSpec.ChunkInv;
    HeadStageMore(p, b);
    var h := HeadStage(p);
    if h.phase == StartLine || h.phase == Headers {
      assert Parse(p) == h;
      assert h.phase == Headers ==> HeadStage(Feed(h, b)) == HeaderStage(Feed(h, b));
    } else {
      TailMore(h, b);
    }
  }

  // ----------------------------------------------------- the law, exactly

  /** Cutting the stream after the bytes in `p` makes no difference to anything that follows. */
  ghost predicate CutIsInvisible(p: State)
    requires Inv(p)
  {
    forall b :: |p.m.buf| + |b| <= MAX_BUFFER ==> Parse(Feed(Parse(p), b)) == Parse(Feed(p, b))
  }

  /** The cut is invisible if and only if the call before it left the cursor at 0 or ended the
      request. */
  lemma SegmentationExact(p: State)
    requires Inv(p) && p.m.rpos == 0 && |p.m.buf| + 2 <= MAX_BUFFER
    ensures CutIsInvisible(p) <==> Calm(Parse(p))
  {
    if Calm(Parse(p)) {
      forall b | |p.m.buf| + |b| <= MAX_BUFFER
        ensures Parse(Feed(Parse(p), b)) == Parse(Feed(p, b))
      {
        ParseMore(p, b);
      }
    } else {
      var b := StallSeen(p);
      ParseMore(p, b);
    }
  }

  /** The four ways to stop with the cursor elsewhere: a blank line before the request line or
      where a chunk size is due, a CR without LF behind chunk data, and anything but CR behind
      the last chunk (a trailer field, say). */
  ghost predicate Stall(p: State) {
    match p.phase
    case StartLine => p.m.rpos == 2 && IsCrlf(p.m.buf, 0)
    case Chunk =>
      && p.m.buf != []
      && if !p.m.inChunk then p.m.rpos == 2 && IsCrlf(p.m.buf, 0)
         else if p.m.chunkSize == 0 then p.m.rpos == TWO_32 - 1 && p.m.buf[0] != '\r'
         else p.m.chunkSize > 0 && p.m.rpos == 1 && |p.m.buf| >= 2 && p.m.buf[0] == '\r' && p.m.buf[1] != '\n'
    case _ => false
  }

  lemma {:induction false} ChunkStall(m: Message)
    requires ChunkInv(m) && m.rpos == 0 && ChunkLoop(m).phase == Chunk && ChunkLoop(m).m.rpos != 0
    ensures Stall(State(Chunk, 0, "", "", ChunkLoop(m).m)) && |ChunkLoop(m).m.buf| <= |m.buf|
    decreases |m.buf|
  {
    if !m.inChunk {
      var k := NextCrlf(m.buf, 0);
      if 0 < k < |m.buf| {
        var next := m.(inChunk := true, chunkSize := ChunkSizeOf(m.buf[0..k]), buf := m.buf[k + 2..]);
        assert ChunkLoop(m) == ChunkLoop(next);
        ChunkStall(next);
      }
    } else if m.chunkSize > 0 {
      var d := TakeData(m);
      assert ChunkLoop(m) == AfterData(d);
      if IsCrlf(d.buf, 0) {
        var next := EndChunk(d);
        assert AfterData(d) == ChunkLoop(next);
        ChunkStall(next);
      }
    }
  }

  /** A call that does not end calm ends in one of the four stalls. */
  lemma NotCalmIsStall(p: State)
    requires Inv(p) && p.m.rpos == 0 && !Calm(Parse(p))
    ensures Stall(Parse(p)) && |Parse(p).m.buf| <= |p.m.buf|
  {
    var h := HeadStage(p);
    HeadShrinks(p);
    HeadStageMore(p, "");
    if h.phase == StartLine {
      assert Parse(p) == h;
      HeadStall(p);
    } else if h.phase != Headers {
      BodyStall(PreBodyStage(h));
    }
  }

  lemma HeadStall(p: State)
    requires Inv(p) && p.m.rpos == 0
    requires HeadStage(p).phase == StartLine && HeadStage(p).m.rpos != 0
    ensures Stall(HeadStage(p))
  {
    StageInv(p);
    var a := LineStage(p);
    if a.phase == Headers { HeaderLinesInv(a.m); }
  }

  lemma BodyStall(k: State)
    requires Inv(k) && Calm(k) && k.phase !in {StartLine, Headers, PreBody} && !Calm(BodyStage(k))
    ensures Stall(BodyStage(k)) && |BodyStage(k).m.buf| <= |k.m.buf|
  {
    if k.phase == Chunk {
      ChunkLoopInv(k.m);
      ChunkStall(k.m);
    }
  }

  lemma HeadShrinks(p: State)
    requires Inv(p)
    ensures |HeadStage(p).m.buf| <= |p.m.buf|
  {
    var a := LineStage(p);
    assert |a.m.buf| <= |p.m.buf|;
    StageInv(p);
    if a.phase == Headers { HeaderLinesShrink(a.m); }
  }

  lemma {:induction false} HeaderLinesShrink(m: Message)
    requires m.rpos == 0
    ensures |HeaderLines(m).m.buf| <= |m.buf|
    decreases |m.buf|
  {
    var k := NextCrlf(m.buf, 0);
    if 0 < k < |m.buf| && IsHeaderLine(m.buf[..k]) {
      var next := m.(headers := AddHeader(m.headers, m.buf[..k]), buf := m.buf[k + 2..]);
      assert HeaderLines(m) == HeaderLines(next);
      HeaderLinesShrink(next);
    }
  }

  /** After a stall the next call does look at the bytes: some continuation tells them apart. */
  lemma StallSeen(p: State) returns (b: string)
    requires Inv(p) && p.m.rpos == 0 && |p.m.buf| + 2 <= MAX_BUFFER && !Calm(Parse(p))
    ensures |p.m.buf| + |b| <= MAX_BUFFER
    ensures Parse(Feed(Parse(p), b)) != Feed(Parse(p), b)
  {
    NotCalmIsStall(p);
    var q := Parse(p);
    if q.phase == StartLine {
      b := CRLF;
      BlankStartLineSeen(q);
    } else if !q.m.inChunk {
      b := CRLF;
      BlankSizeLineSeen(q);
    } else {
      b := "";
      assert q.m.buf + b == q.m.buf;
      BadChunkEndSeen(q);
    }
  }

  lemma BlankStartLineSeen(q: State)
    requires Inv(q) && Stall(q) && q.phase == StartLine
    ensures Parse(Feed(q, CRLF)) != Feed(q, CRLF)
  {
    var f := Feed(q, CRLF);
    assert IsCrlf(f.m.buf, |q.m.buf|);
    var k := NextCrlf(f.m.buf, f.m.rpos);
    if k != f.m.rpos {
      ReadStartLineInv(f.(m := f.m.(rpos := k + 2)), f.m.buf[f.m.rpos..k]);
      LeavesStartLine(f);
    } else {
      assert Parse(f) == LineStage(f);
    }
  }

  lemma BlankSizeLineSeen(q: State)
    requires Inv(q) && Stall(q) && q.phase == Chunk && !q.m.inChunk
    ensures Parse(Feed(q, CRLF)) != Feed(q, CRLF)
  {
    var m := More(q.m, CRLF);
    assert Parse(Feed(q, CRLF)).m == ChunkLoop(m).m;
    assert IsCrlf(m.buf, |q.m.buf|);
    var k := NextCrlf(m.buf, m.rpos);
    if k != m.rpos {
      var next := m.(inChunk := true, chunkSize := ChunkSizeOf(m.buf[m.rpos..k]), buf := m.buf[k + 2..], rpos := 0);
      assert ChunkLoop(m) == ChunkLoop(next);
      ChunkLoopInv(next);
    }
  }

  lemma BadChunkEndSeen(q: State)
    requires Inv(q) && Stall(q) && q.phase == Chunk && q.m.inChunk && |q.m.buf| <= MAX_BUFFER
    ensures Parse(q) != q
  {
    assert Parse(q).m == ChunkLoop(q.m).m;
    if q.m.chunkSize != 0 {
      var d := TakeData(q.m);
      assert ChunkLoop(q.m) == AfterData(d);
      AfterDataInv(d);
    }
  }

  lemma LeavesStartLine(p: State)
    requires Inv(p) && LineStage(p).phase != StartLine
    ensures Parse(p).phase != StartLine
  {
    hide RequestSpec.HeaderLines, RequestSpec.ReadStartLine, RequestSpec.ChunkLoop, RequestSpec.ChunkInv;
    var a := LineStage(p);
    StageInv(p);
    if a.phase == Headers { HeaderLinesInv(a.m); }
    var k := PreBodyStage(HeadStage(p));
    if k.phase == Chunk { ChunkLoopInv(k.m); }
  }

  // ------------------------------------------------------------- deliveries

  /** The request after the segments arrived one by one, with a call of parse after each. */
  function Deliver(p: State, segments: seq<string>): (q: State)
    requires Inv(p)
    ensures Inv(q)
    decreases |segments|
  {
    if segments == [] then p
    else Parse(Feed(Deliver(p, segments[..|segments| - 1]), segments[|segments| - 1]))
  }

  /** A stream that does not stall in one piece has no prefix that does: a stall is final for the
      call, whatever else is in the buffer. */
  lemma PrefixCalm(p: State, stream: string, i: nat)
    requires Inv(p) && p.m.rpos == 0 && i <= |stream| && Calm(Parse(Feed(p, stream)))
    ensures Calm(Parse(Feed(p, stream[..i])))
  {
    hide RequestSpec.Parse;
    var f := Feed(p, stream[..i]);
    FeedTwice(p, stream[..i], stream[i..]);
    assert stream[..i] + stream[i..] == stream;
    ParseMore(f, stream[i..]);
  }

  lemma FeedTwice(p: State, a: string, b: string)
    ensures Feed(Feed(p, a), b) == Feed(p, a + b)
  {
    assert p.m.buf + a + b == p.m.buf + (a + b);
  }

  /** Unless the whole stream stalls in one piece, all that matters is the concatenation of the
      segments. */
  lemma {:induction false} DeliverIsOneShot(p: State, segments: seq<string>)
    requires Inv(p) && p.m.rpos == 0 && segments != []
    requires Calm(Parse(Feed(p, Flatten(segments))))
    ensures Deliver(p, segments) == Parse(Feed(p, Flatten(segments)))
    decreases |segments|
  {
    hide RequestSpec.Parse, RequestSpec.Inv, Calm;
    var front, last := segments[..|segments| - 1], segments[|segments| - 1];
    FlattenLast(segments);
    var whole, done := Flatten(segments), Flatten(front);
    FeedTwice(p, done, last);
    if front == [] {
      assert Feed(p, done) == p by { assert p.m.buf + done == p.m.buf; }
    } else {
      assert whole[..|done|] == done;
      PrefixCalm(p, whole, |done|);
      DeliverIsOneShot(p, front);
      ParseMore(Feed(p, done), last);
    }
  }

  /** However `stream` is cut, what then follows is read as if all had come in one piece. */
  ghost predicate CutsAreInvisible(p: State, stream: string)
    requires Inv(p)
  {
    forall segments, b ::
      segments != [] && Flatten(segments) == stream && |p.m.buf| + |stream| + |b| <= MAX_BUFFER ==>
        Deliver(p, segments + [b]) == Parse(Feed(p, stream + b))
  }

  /** The law for whole streams: every way to cut the stream is invisible to everything that can
      follow if and only if the one-shot call on the stream does not stall. */
  lemma SegmentationLaw(p: State, stream: string)
    requires Inv(p) && p.m.rpos == 0 && |p.m.buf| + |stream| + 2 <= MAX_BUFFER
    ensures CutsAreInvisible(p, stream) <==> Calm(Parse(Feed(p, stream)))
  {
    hide RequestSpec.Parse, RequestSpec.Inv, Calm;
    var f := Feed(p, stream);
    if Calm(Parse(f)) {
      forall segments, b | segments != [] && Flatten(segments) == stream && |p.m.buf| + |stream| + |b| <= MAX_BUFFER
        ensures Deliver(p, segments + [b]) == Parse(Feed(p, stream + b))
      {
        DeliverIsOneShot(p, segments);
        DeliverMore(p, segments, b);
        FeedTwice(p, stream, b);
        ParseMore(f, b);
      }
    } else {
      var b := StallSeen(f);
      var segments := [stream];
      assert segments[1..] == [] && stream + "" == stream;
      DeliverMore(p, segments, b);
      DeliverOne(p, stream);
      FeedTwice(p, stream, b);
      ParseMore(f, b);
      assert Flatten(segments) == stream;
      assert Deliver(p, segments + [b]) != Parse(Feed(p, stream + b));
    }
  }

  lemma DeliverOne(p: State, segment: string)
    requires Inv(p)
    ensures Deliver(p, [segment]) == Parse(Feed(p, segment))
  {
    assert [segment][..0] == [];
  }

  lemma DeliverMore(p: State, segments: seq<string>, b: string)
    requires Inv(p)
    ensures Deliver(p, segments + [b]) == Parse(Feed(Deliver(p, segments), b))
  {
    var all := segments + [b];
    assert all[..|all| - 1] == segments && all[|all| - 1] == b;
  }

  lemma FlattenLast(segments: seq<string>)
    requires segments != []
    ensures Flatten(segments) == Flatten(segments[..|segments| - 1]) + segments[|segments| - 1]
  {
    var front, last := segments[..|segments| - 1], segments[|segments| - 1];
    assert segments == front + [last];
    FlattenAppend(front, [last]);
    assert [last][1..] == [] && last + [] == last;
  }

  /** Where a stall can come from at all: a stream that begins with a blank line, or a chunked
      body. */
  lemma StallSource(stream: string)
    ensures !Calm(Parse(Fresh(stream))) ==> IsCrlf(stream, 0) || Parse(Fresh(stream)).phase == Chunk
  {
    if !Calm(Parse(Fresh(stream))) {
      NotCalmIsStall(Fresh(stream));
      var p := Fresh(stream);
      if Parse(p).phase == StartLine {
        var a := LineStage(p);
        if a.phase != StartLine { LeavesStartLine(p); }
      }
    }
  }

  lemma ChunkNeedsBody(p: State)
    requires Inv(p) && Parse(p).phase == Chunk && p.phase == StartLine
    ensures Parse(p).verb == POST || Parse(p).verb == PUT
  {
    var h := HeadStage(p);
    StageInv(p);
    var a := LineStage(p);
    if a.phase == Headers { HeaderLinesInv(a.m); }
  }

  lemma FeedFresh(t: string)
    ensures Feed(Fresh(""), t) == Fresh(t)
  {
    assert "" + t == t;
  }

  /** A request without a body is read the same however its bytes are cut, whether it is
      accepted or refused and whatever follows it; only a leading blank line is excluded. */
  lemma BodilessSegmentation(segments: seq<string>)
    requires segments != [] && !IsCrlf(Flatten(segments), 0)
    requires Parse(Fresh(Flatten(segments))).verb !in {POST, PUT}
    ensures Deliver(Fresh(""), segments) == Parse(Fresh(Flatten(segments)))
  {
    var whole := Flatten(segments);
    FeedFresh(whole);
    StallSource(whole);
    if Parse(Fresh(whole)).phase == Chunk { ChunkNeedsBody(Fresh(whole)); }
    DeliverIsOneShot(Fresh(""), segments);
  }

  lemma BlankLineStalls(stream: string)
    requires IsCrlf(stream, 0)
    ensures !Calm(Parse(Fresh(stream)))
  {
    hide RequestSpec.ReadStartLine, RequestSpec.HeaderLines, RequestSpec.ChunkLoop;
    NextCrlfIs(stream, 0, 0);
  }

  /** For a stream without a body the law has a condition on the bytes: every cut is invisible if
      and only if the stream does not begin with a blank line. */
  lemma BodilessLaw(stream: string)
    requires Parse(Fresh(stream)).verb !in {POST, PUT} && |stream| + 2 <= MAX_BUFFER
    ensures CutsAreInvisible(Fresh(""), stream) <==> !IsCrlf(stream, 0)
  {
    hide RequestSpec.Parse, RequestSpec.Inv;
    FeedFresh(stream);
    FreshIsSound();
    SegmentationLaw(Fresh(""), stream);
    if IsCrlf(stream, 0) {
      BlankLineStalls(stream);
    } else {
      StallSource(stream);
      if Parse(Fresh(stream)).phase == Chunk { ChunkNeedsBody(Fresh(stream)); }
    }
  }

  lemma FreshIsSound()
    ensures forall s: string :: Inv(Fresh(s))
  {
  }
}
