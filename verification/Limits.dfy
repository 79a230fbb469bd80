/** What the parser does not read: inputs that RFC 9112 allows, or that a client may send, and that
    stop it, slow it down or lose it for good. */
module Limits {
  import opened Text
  import opened Fields
  import opened CLib
  import opened Libft
  import opened RequestSpec
  import opened Segmentation
  import opened Chunked
  import opened ChunkBytes
  import opened Numerals
  import RoundTrips

  /** The same request with a blank line in front that the cursor has passed. */
  function Shifted(p: State): State
  {
    p.(m := p.m.(buf := CRLF + p.m.buf, rpos := p.m.rpos + 2))
  }

  /** A blank line before the request line: in one piece nothing behind it is looked at, while
      in a segment of its own it is skipped.  Then an accepted request line is read as if the blank
      line were not there; otherwise the blank line stays in the buffer, behind the cursor. */
  lemma LeadingBlankLine(rest: string)
    ensures Parse(Fresh(CRLF + rest)).phase == StartLine
    ensures Parse(Feed(Parse(Fresh(CRLF)), rest)) ==
      if LineStage(Fresh(rest)).phase == Headers then Parse(Fresh(rest)) else Shifted(Parse(Fresh(rest)))
  {
    hide RequestSpec.ReadStartLine, HeaderLines, RequestSpec.ChunkLoop;
    StopsBehindBlankLine(rest);
    StopsBehindBlankLine("");
    assert CRLF + "" == CRLF;
    var p, q := Feed(Parse(Fresh(CRLF)), rest), Fresh(rest);
    assert p == Shifted(q);
    SameLine(rest);
    FirstVerdict(rest);
  }

  lemma StopsBehindBlankLine(rest: string)
    ensures Parse(Fresh(CRLF + rest)) == Shifted(Fresh(rest))
  {
    hide RequestSpec.ReadStartLine, HeaderLines, RequestSpec.ChunkLoop;
    NextCrlfIs(CRLF + rest, 0, 0);
  }

  lemma FirstVerdict(rest: string)
    ensures LineStage(Fresh(rest)).phase in {StartLine, Headers, BadRequest}
  {
    hide RequestSpec.ReadStartLine;
    var p, k := Fresh(rest), NextCrlf(rest, 0);
    if 0 < k < |rest| { ReadStartLineInv(p.(m := p.m.(rpos := k + 2)), rest[0..k]); }
  }

  /** The start line stage behind a blank line. */
  lemma SameLine(rest: string)
    ensures
      var q := LineStage(Fresh(rest));
      LineStage(Shifted(Fresh(rest))) == if q.phase == Headers then q else Shifted(q)
  {
    hide RequestSpec.SplitWord, RequestSpec.SplitTarget, AllUpper, MethodId;
    var s := CRLF + rest;
    var k := NextCrlf(rest, 0);
    forall j | 0 <= j <= |rest| ensures IsCrlf(s, 2 + j) == IsCrlf(rest, j) {}
    forall j | 2 <= j < 2 + k ensures !IsCrlf(s, j) { assert !IsCrlf(rest, j - 2); }
    NextCrlfIs(s, 2, 2 + k);
    if k < |rest| {
      assert s[2..2 + k] == rest[0..k] && s[2 + k + 2..] == rest[k + 2..];
    }
  }

  /** Behind a size line from 2^31 up to 2^32 - 1, one more byte makes the call loop for ever, under
      every segmentation. */
  lemma OverflowSpins(head: string, cs: seq<Loose>, size: string, ext: string, rest: string, segments: seq<string>)
    requires IsChunkedHead(head) && AllLoose(cs)
    requires IsSizeLine(size, ext) && INT_MAX < HexValue(size) < TWO_32 && rest != ""
    requires segments != [] && Flatten(segments) == head + (PrintAll(cs) + (size + ext + CRLF + rest))
    ensures Deliver(Fresh(""), segments).phase == Spinning
  {
    hide RequestSpec.Parse, RequestSpec.Inv, IsChunkedHead, AllLoose, PrintAll, HexValue, ChunkSizeOf;
    SizeLineValue(size, ext);
    NoCrInSizeLine(size, ext);
    SizeLineIs(size + ext, rest);
    var body := PrintAll(cs) + (size + ext + CRLF + rest);
    assert SpinTail(size + ext + CRLF + rest);
    assert Spins(body);
    ChunkedVerdict(head, body);
    FreshIsSound();
    FeedFresh(head + body);
    DeliverIsOneShot(Fresh(""), segments);
  }

  /** A stream that does so: a chunk size of 2^32 - 1 and one byte. */
  lemma SpinningStream()
    ensures
      var head := PrintRequest(POST, "/", HTTP_1_1, [Field("Transfer-Encoding", "chunked")], "");
      Parse(Fresh(head + "ffffffff\r\nx")).phase == Spinning
  {
    hide RequestSpec.Parse, RequestSpec.Inv, PrintRequest, IsChunkedHead, HexValue, IsSizeLine;
    var head := PrintRequest(POST, "/", HTTP_1_1, [Field("Transfer-Encoding", "chunked")], "");
    HeadOfExample();
    ValueOfExample();
    var tail := "ffffffff" + "" + CRLF + "x";
    var whole := head + (PrintAll([]) + tail);
    assert "" + tail == tail == "ffffffff\r\nx";
    assert [whole][1..] == [] && whole + "" == whole;
    OverflowSpins(head, [], "ffffffff", "", "x", [whole]);
    FreshIsSound();
    DeliverOne(Fresh(""), whole);
    FeedFresh(whole);
  }

  /** A CR without LF behind chunk data stops the call, and the next call drops that CR and goes on
      as if it had never been sent. */
  lemma CrDropped(p: State)
    requires Inv(p) && Stall(p) && p.phase == Chunk && p.m.inChunk && p.m.chunkSize != 0
    ensures Parse(p) == Parse(p.(m := p.m.(buf := p.m.buf[1..], rpos := 0)))
  {
    hide RequestSpec.ChunkLoop, RequestSpec.AfterData;
    var m := p.m;
    var q := m.(buf := m.buf[1..], rpos := 0);
    DataRound(m);
    DataRound(q);
    assert q.buf[0..] == q.buf && m.buf[1 + 0..] == q.buf;
    assert m.body + m.buf[..0] == m.body + q.buf[..0];
    assert TakeData(m) == TakeData(q);
  }

  // ------------------------------------------------------------------ trailers

  function Loosen(pieces: seq<Piece>): (cs: seq<Loose>)
    ensures |cs| == |pieces|
  {
    seq(|pieces|, i requires 0 <= i < |pieces| => Loose(pieces[i].size + pieces[i].ext, pieces[i].data))
  }

  /** A chunked body up to the line of its last chunk, without what ends it. */
  function UpToTrailer(pieces: seq<Piece>, last: Piece): string {
    PrintAll(Loosen(pieces)) + (last.size + last.ext + CRLF)
  }

  lemma UpToTrailerIs(pieces: seq<Piece>, last: Piece, t: string)
    requires ArePieces(pieces) && IsLast(last)
    ensures AllLoose(Loosen(pieces))
    ensures UpToTrailer(pieces, last) + t == PrintAll(Loosen(pieces)) + (last.size + last.ext + CRLF + t)
    ensures Encode(pieces, last) == UpToTrailer(pieces, last) + CRLF && LooseData(Loosen(pieces)) == Data(pieces)
  {
    forall i | 0 <= i < |pieces| ensures IsLoose(Loosen(pieces)[i]) { PieceIsLoose(pieces[i]); }
    LoosenPrints(pieces, last);
    assert UpToTrailer(pieces, last) + t == PrintAll(Loosen(pieces)) + (last.size + last.ext + CRLF + t);
  }

  lemma PieceIsLoose(c: Piece)
    requires IsPiece(c)
    ensures IsLoose(Loose(c.size + c.ext, c.data))
  {
    hide HexValue, ChunkSizeOf, HasCrlf;
    SizeLineValue(c.size, c.ext);
    NoCrInSizeLine(c.size, c.ext);
  }

  lemma {:induction false} LoosenPrints(pieces: seq<Piece>, last: Piece)
    ensures PrintAll(Loosen(pieces)) + (last.size + last.ext + CRLF) + CRLF == Encode(pieces, last)
    ensures LooseData(Loosen(pieces)) == Data(pieces)
  {
    if pieces != [] {
      assert Loosen(pieces)[1..] == Loosen(pieces[1..]);
      LoosenPrints(pieces[1..], last);
      var c, others := pieces[0], PrintAll(Loosen(pieces[1..]));
      assert EncodePiece(c) + others + (last.size + last.ext + CRLF) + CRLF
          == EncodePiece(c) + (others + (last.size + last.ext + CRLF) + CRLF);
    }
  }

  /** The state of a request whose last chunk is read while its end is not found. */
  predicate AtTrailer(q: State, t: string) {
    q.phase == Chunk && q.m.inChunk && q.m.chunkSize == 0 && q.m.buf == t
  }

  /** One call on a chunked body up to its last chunk and anything behind it: the request is
      complete if and only if that is CRLF first. */
  lemma TrailerVerdict(head: string, pieces: seq<Piece>, last: Piece, t: string)
    requires IsChunkedHead(head) && ArePieces(pieces) && IsLast(last)
    ensures
      var q := Parse(Fresh(head + (UpToTrailer(pieces, last) + t)));
      && (q.phase == Complete <==> IsCrlf(t, 0))
      && (!IsCrlf(t, 0) ==> AtTrailer(q, t) && q.m.rpos == if t == "" || t[0] == '\r' then 0 else TWO_32 - 1)
  {
    hide RequestSpec.HeadStage, RequestSpec.ChunkLoop, AllLoose, PrintAll, HexValue, ChunkSizeOf, HasCrlf,
        UpToTrailer;
    UpToTrailerIs(pieces, last, t);
    var body := UpToTrailer(pieces, last) + t;
    BehindHead(head, body);
    var tail := last.size + last.ext + CRLF + t;
    var e := Through(HeadStage(Fresh(head)).m.(buf := body), Loosen(pieces), tail);
    ReadSizeLine(e, last.size, last.ext, t);
    var d := InChunk(e, HexValue(last.size), t);
    if t == "" { EmptyRound(d); } else { OtherRound(d); }
  }

  /** A request whose last chunk anything but CR follows never ends, however it is cut: the cursor
      wraps below 0 and every later call moves it one further back. */
  lemma {:induction false} Stuck(head: string, pieces: seq<Piece>, last: Piece, t: string, segments: seq<string>)
    requires IsChunkedHead(head) && ArePieces(pieces) && IsLast(last) && t != "" && t[0] != '\r' && segments != []
    requires Flatten(segments) == head + (UpToTrailer(pieces, last) + t)
    requires |Flatten(segments)| + |segments| < TWO_32
    ensures
      var q := Deliver(Fresh(""), segments);
      AtTrailer(q, t) && TWO_32 - |segments| <= q.m.rpos < TWO_32
    decreases |segments|
  {
    hide RequestSpec.Parse, RequestSpec.Inv, IsChunkedHead, ArePieces, IsLast, UpToTrailer, Flatten, Calm;
    FreshIsSound();
    var front, piece := segments[..|segments| - 1], segments[|segments| - 1];
    var base, got, all := head + UpToTrailer(pieces, last), Flatten(front), Flatten(segments);
    FlattenLast(segments);
    assert all == base + t;
    assert got == (base + t)[..|got|];
    if front == [] { NothingFlat(front); }
    if |got| <= |base| {
      FromTheFront(head, pieces, last, t, segments);
      TrailerVerdict(head, pieces, last, t);
    } else {
      var u := t[..|got| - |base|];
      assert got == head + (UpToTrailer(pieces, last) + u);
      Stuck(head, pieces, last, u, front);
      assert u + piece == t;
      OneBack(Feed(Deliver(Fresh(""), front), piece));
    }
  }

  /** As long as nothing behind the last chunk arrived, what matters is the concatenation. */
  lemma FromTheFront(head: string, pieces: seq<Piece>, last: Piece, t: string, segments: seq<string>)
    requires IsChunkedHead(head) && ArePieces(pieces) && IsLast(last) && segments != []
    requires Flatten(segments) == head + (UpToTrailer(pieces, last) + t)
    requires |Flatten(segments[..|segments| - 1])| <= |head| + |UpToTrailer(pieces, last)|
    ensures Deliver(Fresh(""), segments) == Parse(Fresh(head + (UpToTrailer(pieces, last) + t)))
  {
    hide RequestSpec.Parse, RequestSpec.Inv, IsChunkedHead, ArePieces, IsLast, UpToTrailer, Calm, Encode, Flatten;
    FreshIsSound();
    var front, piece := segments[..|segments| - 1], segments[|segments| - 1];
    var base, got := head + UpToTrailer(pieces, last), Flatten(front);
    FlattenLast(segments);
    FeedTwice(Fresh(""), got, piece);
    FeedFresh(got + piece);
    FeedFresh(got);
    if front == [] {
      NothingFlat(front);
      assert "" + piece == piece;
    } else {
      UpToTrailerIs(pieces, last, t);
      assert got + piece == base + t;
      assert got == (base + t)[..|got|] == base[..|got|];
      assert head + Encode(pieces, last) + "" == base + CRLF;
      ChunkedCalm(head, pieces, last, got, "");
      DeliverIsOneShot(Fresh(""), front);
      ParseMore(Fresh(got), piece);
    }
  }

  /** A chunked body is decoded if and only if its trailer section is empty, under every
      segmentation: with a trailer field the request never ends, whatever else arrives. */
  lemma TrailerLaw(head: string, pieces: seq<Piece>, last: Piece, t: string, segments: seq<string>)
    requires IsChunkedHead(head) && ArePieces(pieces) && IsLast(last)
    requires segments != [] && forall i :: 0 <= i < |segments| ==> segments[i] != ""
    requires Flatten(segments) == head + (UpToTrailer(pieces, last) + t) && |Flatten(segments)| <= MAX_BUFFER
    ensures
      var q := Deliver(Fresh(""), segments);
      && (q.phase == Complete <==> IsCrlf(t, 0))
      && (!IsCrlf(t, 0) ==> AtTrailer(q, t))
  {
    hide RequestSpec.Parse, RequestSpec.Inv, IsChunkedHead, ArePieces, IsLast, UpToTrailer, Deliver, Flatten;
    FreshIsSound();
    FeedFresh(Flatten(segments));
    TrailerVerdict(head, pieces, last, t);
    if t == "" || t[0] == '\r' {
      DeliverIsOneShot(Fresh(""), segments);
    } else {
      NotMoreThanBytes(segments);
      Stuck(head, pieces, last, t, segments);
    }
  }

  lemma {:induction false} NotMoreThanBytes(segments: seq<string>)
    requires forall i :: 0 <= i < |segments| ==> segments[i] != ""
    ensures |segments| <= |Flatten(segments)|
  {
    if segments != [] { NotMoreThanBytes(segments[1..]); }
  }

  lemma NothingFlat(segments: seq<string>)
    requires segments == []
    ensures Flatten(segments) == ""
  {
  }

  /** The sizes and the head of the example. */
  lemma ValueOfExample()
    ensures IsSizeLine("ffffffff", "") && HexValue("ffffffff") == 4294967295
  {
    hide Value, Place, IsHexDigit;
    NothingValued();
    OneF("", "f", 0);
    OneF("f", "ff", 0xf);
    OneF("ff", "fff", 0xff);
    OneF("fff", "ffff", 0xfff);
    OneF("ffff", "fffff", 0xffff);
    OneF("fffff", "ffffff", 0xfffff);
    OneF("ffffff", "fffffff", 0xffffff);
    OneF("fffffff", "ffffffff", 0xfffffff);
  }

  lemma NothingValued()
    ensures Value("", 16) == 0
  {
  }

  lemma OneF(s: string, t: string, v: nat)
    requires Value(s, 16) == v && t == s + "f"
    ensures Value(t, 16) == v * 16 + 15 && IsHexDigit('f')
  {
    hide Place, IsHexDigit;
    PlaceIs('f');
    assert t[..|t| - 1] == s;
  }

  lemma HeadOfExample()
    ensures IsChunkedHead(PrintRequest(POST, "/", HTTP_1_1, [Field("Transfer-Encoding", "chunked")], ""))
  {
    hide IsChunkedHead, PrintRequest, HeaderValue, Sorted;
    var f := Field("Transfer-Encoding", "chunked");
    PlainField(f);
    NoCrlfWithoutCr("/");
    RoundTrips.PrintedChunkedHead(POST, "/", [f]);
  }

  lemma NoCrlfWithoutCr(s: string)
    requires '\r' !in s
    ensures !HasCrlf(s)
  {
  }

  lemma PlainField(f: Field)
    requires f.key != "" && ':' !in f.key && '\r' !in f.key && '\r' !in f.value && f.value != "" && f.value[0] != ' '
    ensures RoundTrips.AreFields([f]) && Sorted([f]) && HeaderValue([f], f.key) == f.value
  {
  }

  lemma OneBack(p: State)
    requires Inv(p) && p.phase == Chunk && p.m.inChunk && p.m.chunkSize == 0 && p.m.buf != []
    requires if p.m.rpos == 0 then p.m.buf[0] != '\r' else |p.m.buf| < p.m.rpos < TWO_32
    ensures Parse(p) == p.(m := p.m.(rpos := if p.m.rpos == 0 then TWO_32 - 1 else p.m.rpos - 1))
  {
    hide RequestSpec.ChunkLoop;
    OtherRound(p.m);
  }

  lemma {:induction false} HasDigit(n: nat)
    ensures DigitsOf(n) != "" && IsDigit(DigitsOf(n)[0])
    decreases n
  {
    if n >= 10 { HasDigit(n / 10); }
  }

  /** A body framed by any decimal Content-Length is refused, the one of length 0 included. */
  lemma LengthRefused(p: State, n: nat)
    requires Inv(p) && p.phase == Headers && HeaderLines(p.m).phase == PreBody && p.verb in {POST, PUT}
    requires HeaderValue(HeaderLines(p.m).m.headers, "Transfer-Encoding") != "chunked"
    requires HeaderValue(HeaderLines(p.m).m.headers, "Content-Length") == Decimal(n)
    ensures Parse(p).phase == BadRequest
  {
    hide HeaderLines, HeaderValue;
    HasDigit(n);
    var length := Decimal(n);
    assert IsDigit(length[0]);
  }
}
