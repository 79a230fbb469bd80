/** The growable buffer with 32-bit read and write cursors that every message is built on. */
module Buffers {
  import opened CLib

  class ByteBuffer {
    var rpos: uint32
    var wpos: uint32
    var buf: string

    /** Everything that was ever erased from the front, in order. */
    ghost var erased: string

    /** Between operations new bytes go to the end; a buffer is small enough for int positions. */
    ghost predicate Valid()
      reads this
    {
      wpos == |buf| <= INT_MAX
    }

    /** All bytes that were ever put into the buffer. */
    ghost function Fed(): string
      reads this
    {
      erased + buf
    }

    constructor ()
      ensures Valid() && buf == "" && rpos == 0 && erased == ""
    {
      rpos, wpos, buf, erased := 0, 0, "", "";
    }

    constructor FromBytes(bytes: string)
      requires |bytes| <= INT_MAX
      ensures Valid() && buf == bytes && rpos == 0 && erased == ""
    {
      rpos, wpos, buf, erased := 0, 0, "", "";
      new;
      PutBytes(bytes);
      assert "" + bytes == bytes;
    }

    method Clear()
      modifies this
      ensures Valid() && buf == "" && rpos == 0 && erased == old(Fed())
    {
      erased := erased + buf;
      rpos, wpos := 0, 0;
      buf := "";
    }

    /** The byte at a position; reading behind the end gives 0. */
    function At(index: nat): char
      reads this
    {
      if index + 1 <= |buf| then buf[index] else '\0'
    }

    method Peek() returns (c: char)
      ensures c == At(rpos)
    {
      c := At(rpos);
    }

    method Get() returns (c: char)
      modifies this`rpos
      ensures c == old(At(rpos)) && rpos == Wrap32(old(rpos) + 1)
    {
      c := At(rpos);
      rpos := Wrap32(rpos + 1);
    }

    /** The cursor as an int. */
    function GetReadPos(): int
      reads this
    {
      ToInt32(rpos)
    }

    method SetReadPos(r: int)
      modifies this`rpos
      ensures rpos == Wrap32(r)
    {
      rpos := Wrap32(r);
    }

    /** Removes [startPos, endPos); both cursors move back by as much, modulo 2^32. */
    method Erase(startPos: int, endPos: int)
      requires Valid() && 0 <= startPos <= endPos <= |buf|
      modifies this
      ensures Valid() && buf == old(buf[..startPos] + buf[endPos..])
      ensures rpos == if startPos == 0 && endPos == old(|buf|) then 0 else Wrap32(old(rpos) - (endPos - startPos))
      ensures startPos == 0 ==> Fed() == old(Fed())
    {
      if startPos == 0 && endPos == |buf| {
        Clear();
        assert Fed() == old(Fed()) && old(buf[..startPos] + buf[endPos..]) == "";
      } else {
        erased := erased + buf[startPos..endPos];
        rpos := Wrap32(rpos - (endPos - startPos));
        wpos := Wrap32(wpos - (endPos - startPos));
        buf := buf[..startPos] + buf[endPos..];
        if startPos == 0 {
          assert erased + buf == old(erased) + (old(buf)[..endPos] + old(buf)[endPos..]);
          assert old(buf)[..endPos] + old(buf)[endPos..] == old(buf);
        }
      }
    }

    /** Copies at most `len` bytes from the front of the buffer, wherever the cursor is. */
    method GetDataToString(s: string, len: nat) returns (t: string, n: nat)
      requires Valid() && rpos + len < TWO_32
      modifies this`rpos
      ensures n == if len > |buf| then |buf| else len
      ensures t == s + buf[..n]
      ensures rpos == if len > |buf| then |buf| else old(rpos) + len
    {
      if len > |buf| {
        t := s + buf[..|buf|];
        rpos := |buf|;
        n := |buf|;
      } else {
        t := s + buf[..len];
        rpos := rpos + len;
        n := len;
      }
    }

    /** append<byte>: resize when needed, then store at the write cursor. */
    method Append(c: char)
      requires Valid() && |buf| < INT_MAX
      modifies this
      ensures Valid() && buf == old(buf) + [c] && rpos == old(rpos) && erased == old(erased)
    {
      if |buf| < wpos + 1 {
        buf := buf + ['\0'];
      }
      buf := buf[wpos := c];
      wpos := wpos + 1;
    }

    method PutBytes(bytes: string)
      requires Valid() && |buf| + |bytes| <= INT_MAX
      modifies this
      ensures Valid() && buf == old(buf) + bytes && rpos == old(rpos) && erased == old(erased)
    {
      for i := 0 to |bytes|
        invariant Valid() && buf == old(buf) + bytes[..i] && rpos == old(rpos) && erased == old(erased)
      {
        Append(bytes[i]);
        assert bytes[..i + 1] == bytes[..i] + [bytes[i]];
      }
      assert bytes[..|bytes|] == bytes;
    }

    /** One resize and one copy at the write cursor. */
    method PutString(bytes: string)
      requires Valid() && |buf| + |bytes| <= INT_MAX
      modifies this
      ensures Valid() && buf == old(buf) + bytes && rpos == old(rpos) && erased == old(erased)
    {
      if |buf| < wpos + |bytes| {
        buf := buf + seq(wpos + |bytes| - |buf|, _ => '\0');
      }
      buf := buf[..wpos] + bytes + buf[wpos + |bytes|..];
      wpos := wpos + |bytes|;
    }

    /** Copies `len` bytes from the cursor on. */
    method GetBytes(len: nat) returns (bytes: string)
      requires Valid() && rpos + len <= |buf|
      modifies this`rpos
      ensures bytes == buf[old(rpos)..old(rpos) + len] && rpos == old(rpos) + len
    {
      bytes := "";
      for i := 0 to len
        invariant rpos == old(rpos) + i && bytes == buf[old(rpos)..old(rpos) + i]
      {
        var c := Get();
        bytes := bytes + [c];
      }
    }
  }
}
