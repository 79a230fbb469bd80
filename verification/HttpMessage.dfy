/** HTTPMessage: header section and chunked body, read from and printed to the buffer. */
module Messages {
  import opened Wrappers
  import opened Text
  import opened Fields
  import opened CLib
  import opened RequestSpec
  import opened Buffers

  class HttpMessage {
    const buffer: ByteBuffer

    var headers: FieldMap
    var chunkedStatus: bool
    var chunkSize: int
    var chunkBodyReadSize: int
    var version: string
    var data: Option<string>
    var dataLen: nat
    var tempBody: string

    ghost function View(): Message
      reads this, buffer
    {
      Message(buffer.buf, buffer.rpos, version, headers, chunkedStatus, chunkSize, chunkBodyReadSize,
              tempBody, data, dataLen)
    }

    ghost predicate Valid()
      reads this, buffer
    {
      buffer.Valid()
    }

    constructor (bytes: string)
      requires |bytes| <= INT_MAX
      ensures Valid() && fresh(buffer) && View() == FreshMessage(bytes) && buffer.erased == ""
    {
      buffer := new ByteBuffer.FromBytes(bytes);
      data, dataLen := None, 0;
      tempBody := "";
      chunkedStatus, chunkSize, chunkBodyReadSize := false, -1, 0;
      version := HTTP_1_1;
      headers := [];
    }

    // ------------------------------------------------------------ reading

    /** The text up to the next CRLF, and the cursor behind it; "" with the cursor unmoved when
        there is no CRLF, and "" with the cursor moved when the line is empty. */
    method GetLine() returns (line: string)
      requires Valid() && buffer.rpos <= |buffer.buf|
      modifies buffer`rpos
      ensures
        var start, s := old(buffer.rpos), buffer.buf;
        var k := NextCrlf(s, start);
        if k == |s| then line == "" && buffer.rpos == start else line == s[start..k] && buffer.rpos == k + 2
    {
      hide Wrap32, ToInt32;
      ghost var s := buffer.buf;
      line := "";
      var startPos := buffer.GetReadPos();
      var i := startPos;
      while i < |buffer.buf|
        invariant startPos <= i <= |s| && startPos == old(buffer.rpos) && buffer.buf == s
        invariant buffer.rpos == i && line == s[startPos..i]
        invariant forall j :: startPos <= j < i ==> !IsCrlf(s, j)
      {
        var c := buffer.Peek();
        if c == '\r' {
          c := buffer.Get();
          var next := buffer.Peek();
          if next == '\n' {
            NextCrlfIs(s, startPos, i);
            c := buffer.Get();
            return;
          }
          buffer.SetReadPos(buffer.GetReadPos() - 1);
        }
        assert !IsCrlf(s, i) && buffer.rpos == i;
        var d := buffer.Get();
        SliceSnoc(s, startPos, i);
        line := line + [d];
        i := i + 1;
      }
      NextCrlfIs(s, startPos, |s|);
      buffer.SetReadPos(startPos);
      line := "";
    }

    /** Looks at the two bytes before the cursor.  With the cursor at 0 they are read at
        2^32 - 2 and 2^32 - 1, behind the end of any buffer, and the cursor wraps back to 0. */
    method CheckHeaderEnd() returns (end: bool)
      requires Valid() && (buffer.rpos == 0 || 2 <= buffer.rpos <= |buffer.buf|)
      modifies buffer`rpos
      ensures buffer.rpos == old(buffer.rpos)
      ensures end <==> buffer.rpos >= 2 && IsCrlf(buffer.buf, buffer.rpos - 2)
    {
      buffer.SetReadPos(buffer.GetReadPos() - 2);
      var flag := "";
      for i := 0 to 2
        invariant |flag| == i
        invariant buffer.rpos == Wrap32(old(buffer.rpos) - 2 + i)
        invariant forall j :: 0 <= j < i ==> flag[j] == buffer.At(Wrap32(old(buffer.rpos) - 2 + j))
      {
        var c := buffer.Get();
        flag := flag + [c];
      }
      end := flag[0] == '\r' && flag[1] == '\n';
    }

    /** The value of a field line begins behind the spaces that follow the colon. */
    static method SkipSpaces(value: string) returns (r: string)
      ensures r == DropSpaces(value)
    {
      var i := 0;
      assert value[0..] == value;
      while i < |value| && value[i] == ' '
        invariant i <= |value| && DropSpaces(value[i..]) == DropSpaces(value)
      {
        DropSpacesStep(value, i);
        i := i + 1;
      }
      DropSpacesStep(value, i);
      r := value[i..];
    }

    method AddHeaderLine(line: string)
      modifies this`headers
      ensures headers == AddHeader(old(headers), line)
    {
      hide Insert;
      var kpos := IndexOf(line, ':');
      if kpos == |line| { return; }
      var key := line[..kpos];
      var value := SkipSpaces(line[kpos + 1..]);
      assert AddHeader(headers, line) == Insert(headers, key, value);
      AddField(key, value);
    }

    method AddField(key: string, value: string)
      modifies this`headers
      ensures headers == Insert(old(headers), key, value)
    {
      headers := Insert(headers, key, value);
    }

    /** erase(0, getReadPos()): drops the bytes that were read. */
    method EraseRead()
      requires Valid() && buffer.rpos <= |buffer.buf|
      modifies buffer
      ensures Valid() && View() == old(View()).(buf := old(buffer.buf[buffer.rpos..]), rpos := 0)
      ensures buffer.Fed() == old(buffer.Fed())
    {
      buffer.Erase(0, buffer.GetReadPos());
      assert old(buffer.buf[..0]) + old(buffer.buf[buffer.rpos..]) == old(buffer.buf[buffer.rpos..]);
    }

    /** `rounds` counts the lines that getLine is asked for. */
    method ParseHeaders() returns (phase: Phase, ghost rounds: nat)
      requires Valid() && buffer.rpos == 0
      modifies this`headers, buffer
      ensures rounds <= old(|buffer.buf|) - |buffer.buf| + 1
      ensures Valid() && Progress(phase, View()) == HeaderLines(old(View()))
      ensures buffer.Fed() == old(buffer.Fed())
    {
      hide HeaderLines, AddHeader;
      rounds := 0;
      while true
        invariant Valid() && buffer.rpos == 0 && rounds <= old(|buffer.buf|) - |buffer.buf|
        invariant HeaderLines(View()) == HeaderLines(old(View()))
        invariant buffer.Fed() == old(buffer.Fed())
        decreases |buffer.buf|
      {
        ghost var m := View();
        rounds := rounds + 1;
        HeaderRound(m);
        assert forall k: nat :: k <= |m.buf| ==> m.buf[0..k] == m.buf[..k];
        var hline := GetLine();
        if hline == "" { break; }
        var kpos := IndexOf(hline, ':');
        if kpos == |hline| || kpos == 0 {
          return BadRequest, rounds;
        }
        AddHeaderLine(hline);
        EraseRead();
      }
      var end := CheckHeaderEnd();
      if end {
        EraseRead();
        return PreBody, rounds;
      }
      return Headers, rounds;
    }

    function GetHeaderValue(key: string): string
      reads this
    {
      HeaderValue(headers, key)
    }

    method CheckChunkedBody() returns (phase: Phase)
      ensures phase == CheckChunked(headers)
    {
      if GetHeaderValue("Transfer-Encoding") == "chunked" {
        return Chunk;
      }
      var contentLen := GetHeaderValue("Content-Length");
      if contentLen == "" { return BadRequest; }
      for i := 0 to |contentLen|
        invariant forall j :: 0 <= j < i ==> !IsDigit(contentLen[j])
      {
        if IsDigit(contentLen[i]) { return BadRequest; }
      }
      return Body;
    }

    /** Only reached with a Content-Length without digits. */
    method ParseBodyContentLen() returns (phase: Phase)
      requires Valid() && buffer.rpos == 0
      requires forall i :: 0 <= i < |GetHeaderValue("Content-Length")| ==> !IsDigit(GetHeaderValue("Content-Length")[i])
      modifies this`data, this`dataLen, buffer
      ensures Valid() && phase == Complete && View() == EmptyBody(old(View()))
      ensures buffer.Fed() == old(buffer.Fed())
    {
      var hlenstr := GetHeaderValue("Content-Length");
      NoDigitsIsZero(hlenstr);
      var contentLen := Wrap32(ToInt32(Strtol(hlenstr, 10)));
      if contentLen > Wrap32(|buffer.buf| - buffer.rpos) + 1 { return Body; }
      dataLen := contentLen;
      data := Some("");
      EraseRead();
      return Complete;
    }

    /** Takes a CRLF at the cursor, with everything before it.  A CR that LF does not follow
        leaves the cursor behind the CR. */
    method CheckEndChunkBody() returns (end: bool)
      requires Valid()
      modifies buffer
      ensures Valid() && buffer.Fed() == old(buffer.Fed())
      ensures end <==> old(IsCrlf(buffer.buf, buffer.rpos))
      ensures end ==> buffer.buf == old(buffer.buf[buffer.rpos + 2..]) && buffer.rpos == 0
      ensures !end ==> buffer.buf == old(buffer.buf)
      ensures !end ==> buffer.rpos == Wrap32(old(buffer.rpos) + if old(buffer.At(buffer.rpos)) == '\r' then 1 else 0)
    {
      var c := buffer.Peek();
      if c == '\r' {
        c := buffer.Get();
        var d := buffer.Peek();
        if d == '\n' {
          d := buffer.Get();
          EraseRead();
          return true;
        }
      }
      return false;
    }

    /** The branch for chunk size 0. */
    method LastChunkProcess() returns (status: Phase)
      requires Valid() && ChunkInv(View()) && chunkedStatus && buffer.buf != "" && chunkSize == 0
      modifies buffer
      ensures Valid() && buffer.Fed() == old(buffer.Fed())
      ensures status == (if old(IsCrlf(buffer.buf, buffer.rpos)) then Complete else Chunk)
      ensures status == Complete ==>
        View() == old(View()).(buf := old(buffer.buf[buffer.rpos + 2..]), rpos := 0)
      ensures status == Chunk ==> LastChunk(old(View())) == Progress(Chunk, View())
    {
      hide RequestSpec.ChunkLoop;
      var end := CheckEndChunkBody();
      if end { return Complete; }
      buffer.SetReadPos(buffer.GetReadPos() - 1);
      return Chunk;
    }

    /** Moves what is there of the current chunk to tempBody. */
    method MoveData()
      requires Valid() && ChunkInv(View()) && chunkedStatus && chunkSize > 0
      modifies this`tempBody, this`dataLen, this`chunkBodyReadSize, buffer
      ensures Valid() && buffer.Fed() == old(buffer.Fed())
      ensures View() == TakeData(old(View()))
    {
      hide RequestSpec.ChunkLoop;
      var body, len := buffer.GetDataToString(tempBody, chunkSize - chunkBodyReadSize);
      tempBody := body;
      dataLen := |tempBody|;
      chunkBodyReadSize := chunkBodyReadSize + len;
      EraseRead();
    }

    /** One round inside a chunk.  None stands for the result 0, "go on". */
    method ChunkBodyProcess() returns (status: Option<Phase>)
      requires Valid() && ChunkInv(View()) && chunkedStatus && buffer.buf != ""
      modifies this`tempBody, this`dataLen, this`chunkBodyReadSize, this`chunkedStatus, buffer
      ensures Valid() && buffer.Fed() == old(buffer.Fed())
      ensures status in {None, Some(Chunk), Some(Complete)}
      ensures status == Some(Complete) ==>
        && chunkSize == 0 && old(IsCrlf(buffer.buf, buffer.rpos))
        && View() == old(View()).(buf := old(buffer.buf[buffer.rpos + 2..]), rpos := 0)
      ensures status == Some(Chunk) ==> ChunkLoop(old(View())) == Progress(Chunk, View())
      ensures status == None && chunkSize < old(chunkBodyReadSize) ==> View() == old(View())
      ensures status == None && chunkSize >= old(chunkBodyReadSize) ==>
        && chunkSize > 0 && |buffer.buf| < old(|buffer.buf|) && ChunkInv(View())
        && ChunkLoop(old(View())) == ChunkLoop(View())
    {
      hide RequestSpec.ChunkLoop, RequestSpec.Available, RequestSpec.LastChunk;
      if chunkSize == 0 {
        OtherRound(View());
        var last := LastChunkProcess();
        return Some(last);
      } else if chunkSize >= chunkBodyReadSize {
        DataRound(View());
        DataShrinks(View());
        MoveData();
        if chunkSize == chunkBodyReadSize {
          var end := false;
          if |buffer.buf| >= 2 { end := CheckEndChunkBody(); }
          if end {
            chunkedStatus := false;
            chunkBodyReadSize := 0;
          } else {
            return Some(Chunk);
          }
        }
      }
      return None;
    }

    /** The branch before a size line; false when no complete, non-empty line is there. */
    method ReadChunkSize() returns (found: bool)
      requires Valid() && ChunkInv(View()) && !chunkedStatus && buffer.buf != ""
      modifies this`chunkSize, this`chunkedStatus, buffer
      ensures Valid() && buffer.Fed() == old(buffer.Fed())
      ensures !found ==> ChunkLoop(old(View())) == Progress(Chunk, View())
      ensures found ==>
        && |buffer.buf| < old(|buffer.buf|) && ChunkInv(View())
        && ChunkLoop(old(View())) == ChunkLoop(View())
    {
      hide RequestSpec.ChunkLoop, Strtol;
      SizeLineRound(View());
      var line := GetLine();
      if line == "" { return false; }
      if line[0] == '0' && |line| > 1 && line[1] == 'x' {
        BaseZeroIsHex(line);
        chunkSize := ToInt32(Strtol(line, 0));
      } else {
        chunkSize := ToInt32(Strtol(line, 16));
      }
      EraseRead();
      chunkedStatus := true;
      return true;
    }

    /** `rounds` counts the iterations: each that does not return takes a byte off the buffer. */
    method ParseBodyChunked() returns (phase: Phase, ghost rounds: nat)
      requires Valid() && ChunkInv(View())
      modifies this`tempBody, this`dataLen, this`data, this`chunkSize, this`chunkBodyReadSize,
          this`chunkedStatus, buffer
      ensures Valid() && Progress(phase, View()) == ChunkLoop(old(View()))
      ensures buffer.Fed() == old(buffer.Fed())
      ensures rounds <= old(|buffer.buf|) + 1
    {
      hide RequestSpec.ChunkLoop;
      rounds := 0;
      while |buffer.buf| > 0
        invariant Valid() && ChunkInv(View()) && rounds <= old(|buffer.buf|) - |buffer.buf|
        invariant ChunkLoop(View()) == ChunkLoop(old(View()))
        invariant buffer.Fed() == old(buffer.Fed())
        decreases |buffer.buf|
      {
        rounds := rounds + 1;
        if !chunkedStatus {
          var found := ReadChunkSize();
          if !found { return Chunk, rounds; }
        } else {
          if chunkSize <= 0 { OtherRound(View()); }
          var status := ChunkBodyProcess();
          if status == Some(Complete) {
            if data.None? {
              data := Some(tempBody);
            }
            return Complete, rounds;
          } else if status == Some(Chunk) {
            return Chunk, rounds;
          } else if chunkSize < chunkBodyReadSize {
            // Nothing changed, so the program stays in this loop for ever.
            return Spinning, rounds;
          }
        }
      }
      EmptyRound(View());
      return Chunk, rounds;
    }

    // ----------------------------------------------------------- printing

    method PutLine(str: string := "", crlfEnd: bool := true)
      requires Valid() && |buffer.buf| + |str| + 2 <= INT_MAX
      modifies buffer
      ensures Valid() && buffer.rpos == old(buffer.rpos)
      ensures buffer.buf == old(buffer.buf) + str + if crlfEnd then CRLF else ""
    {
      var line := str;
      if crlfEnd { line := line + CRLF; }
      buffer.PutBytes(line);
    }

    /** Every entry in map order, then the blank line. */
    method PutHeaders()
      requires Valid() && |buffer.buf| + |PrintFields(headers)| <= INT_MAX
      modifies buffer
      ensures Valid() && buffer.rpos == old(buffer.rpos)
      ensures buffer.buf == old(buffer.buf) + PrintFields(headers)
    {
      ghost var all := old(buffer.buf) + PrintFields(headers);
      var i := 0;
      while i < |headers|
        invariant i <= |headers| && Valid() && buffer.rpos == old(buffer.rpos)
        invariant buffer.buf + PrintFields(headers[i..]) == all
      {
        ghost var done := buffer.buf;
        assert headers[i..][0] == headers[i] && headers[i..][1..] == headers[i + 1..];
        var final := headers[i].key + ": " + headers[i].value;
        PutLine(final);
        PrintedOne(done, FieldLine(headers[i]), PrintFields(headers[i + 1..]));
        i := i + 1;
      }
      PutLine();
      assert buffer.buf == all;
    }

    lemma PrintedOne(done: string, line: string, rest: string)
      ensures done + line + CRLF + rest == done + (line + CRLF + rest)
    {
    }

    /** The part of create() that requests and responses share: `line`, the headers and the data,
        copied out from position 0. */
    method Print(line: string) returns (bytes: string)
      requires Valid() && (data.Some? ==> |data.value| == dataLen)
      requires |line| + 2 + |PrintFields(headers)| + dataLen <= INT_MAX
      modifies buffer
      ensures Valid() && buffer.buf == bytes
      ensures bytes == line + CRLF + PrintFields(headers) + if data.Some? then data.value else ""
    {
      buffer.Clear();
      PutLine(line);
      assert "" + line + CRLF == line + CRLF;
      PutHeaders();
      if data.Some? && dataLen > 0 {
        buffer.PutBytes(data.value);
      }
      buffer.SetReadPos(0);
      bytes := buffer.GetBytes(|buffer.buf|);
    }
  }
}
