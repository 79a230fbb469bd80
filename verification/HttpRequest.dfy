/** HTTPRequest: the request line, and the call that drives the whole parser. */
module Requests {
  import opened Wrappers
  import opened Text
  import opened Fields
  import opened CLib
  import opened RequestSpec
  import opened Messages
  import Segmentation

  /** find(' ') as an int: -1 when there is no space. */
  function FindSpace(s: string): int {
    if IndexOf(s, ' ') == |s| then -1 else IndexOf(s, ' ')
  }

  /** substr(0, n) with n converted to size_t: everything when n is -1. */
  function Head(s: string, n: int): string
    requires -1 <= n <= |s|
  {
    if n == -1 then s else s[..n]
  }

  class HttpRequest {
    const msg: HttpMessage

    var status: Phase
    var verb: int            // method
    var configDir: string
    var requestUri: string

    ghost function View(): State
      reads this, msg, msg.buffer
    {
      State(status, verb, configDir, requestUri, msg.View())
    }

    ghost predicate Valid()
      reads this, msg, msg.buffer
    {
      msg.Valid() && Inv(View()) && status != PreBody && status != Body
    }

    /** All bytes this request was given. */
    ghost function Fed(): string
      reads msg, msg.buffer
    {
      msg.buffer.Fed()
    }

    constructor (bytes: string)
      requires |bytes| <= INT_MAX
      ensures Valid() && fresh(msg) && fresh(msg.buffer)
      ensures View() == Fresh(bytes) && Fed() == bytes
    {
      msg := new HttpMessage(bytes);
      status := StartLine;
      verb := -1;
      configDir, requestUri := "", "";
      new;
      assert "" + bytes == bytes;
    }

    /** putString: `bytes` arrive. */
    method PutString(bytes: string)
      requires Valid() && |msg.buffer.buf| + |bytes| <= INT_MAX
      modifies msg.buffer
      ensures Valid() && View() == Feed(old(View()), bytes)
      ensures Fed() == old(Fed()) + bytes
    {
      msg.buffer.PutString(bytes);
      assert old(msg.buffer.erased) + (old(msg.buffer.buf) + bytes) == old(Fed()) + bytes;
    }

    /** Splits the method off the line, which is shortened in place. */
    method CheckMethod(startLine: string) returns (ok: bool, rest: string)
      modifies this`verb
      ensures
        var name := SplitWord(startLine).0;
        && rest == SplitWord(startLine).1
        && ok == (name != "" && AllUpper(name))
        && verb == if ok then MethodId(name) else old(verb)
    {
      var spacePos := FindSpace(startLine);
      var methodName := Head(startLine, spacePos);
      rest := startLine[spacePos + 1..];
      if methodName == "" { return false, rest; }
      for i := 0 to |methodName|
        invariant verb == old(verb) && forall j :: 0 <= j < i ==> IsUpper(methodName[j])
      {
        if !IsUpper(methodName[i]) { return false, rest; }
      }
      verb := MethodId(methodName);
      return true, rest;
    }

    /** Splits the target off the line and takes it apart. */
    method CheckUri(startLine: string) returns (ok: bool, rest: string)
      modifies this`configDir, this`requestUri
      ensures
        var target := SplitWord(startLine).0;
        var parts := SplitTarget(target, old(requestUri));
        && rest == SplitWord(startLine).1
        && ok == parts.Some?
        && (if ok then (configDir, requestUri) == parts.value
            else configDir == old(configDir) && requestUri == old(requestUri))
    {
      var spacePos := FindSpace(startLine);
      var urlName := Head(startLine, spacePos);
      rest := startLine[spacePos + 1..];
      if urlName == "" { return false, rest; }
      if urlName[0] != '/' { return false, rest; }
      var dirName := "/";
      var i := 1;
      while i < |urlName|
        invariant 1 <= i <= |urlName| && dirName == urlName[..i] && '/' !in urlName[1..i]
        invariant configDir == old(configDir) && requestUri == old(requestUri)
      {
        if urlName[i] == '/' { break; }
        SliceSnoc(urlName, 0, i);
        dirName := dirName + [urlName[i]];
        i := i + 1;
      }
      SlashIs(urlName, i);
      if dirName == urlName {
        if '.' !in dirName {
          configDir := dirName;
        } else {
          configDir := "/";
          requestUri := dirName;
        }
      } else {
        if '.' !in dirName {
          configDir := dirName;
          requestUri := urlName[i..];
        } else {
          return false, rest;
        }
      }
      return true, rest;
    }

    lemma SlashIs(s: string, i: nat)
      requires 1 <= i <= |s| && '/' !in s[1..i] && (i < |s| ==> s[i] == '/')
      ensures IndexOf(s, '/', 1) == i
    {
      assert forall j :: 1 <= j < i ==> s[j] == s[1..i][j - 1];
      IndexOfIs(s, '/', 1, i);
    }

    method ParseStartLine() returns (phase: Phase)
      requires Valid() && status == StartLine
      modifies this`verb, this`configDir, this`requestUri, msg`version, msg.buffer
      ensures msg.Valid() && View().(phase := phase) == StartLineStage(old(View()))
      ensures Fed() == old(Fed())
    {
      hide SplitTarget, SplitWord, MethodId, AllUpper, HeaderLines, RequestSpec.ChunkLoop, NextCrlf;
      var startLine := msg.GetLine();
      if startLine != "" {
        var ok, rest := CheckMethod(startLine);
        if !ok { return BadRequest; }
        ok, rest := CheckUri(rest);
        if !ok { return BadRequest; }
        msg.version := rest;
        if msg.version != HTTP_1_1 { return BadRequest; }
        msg.EraseRead();
        return Headers;
      }
      return StartLine;
    }

    /** The stages of parse that read the request line and the header section. */
    method ParseHead()
      requires Valid()
      modifies this, msg`version, msg`headers, msg.buffer
      ensures msg.Valid() && View() == HeadStage(old(View())) && status != Body
      ensures Fed() == old(Fed())
    {
      hide StartLineStage, HeaderLines, ChunkInv;
      ghost var p := View();
      StageInv(p);
      if status == StartLine {
        status := ParseStartLine();
      }
      assert View() == LineStage(p);
      if status == Headers {
        ghost var rounds;
        status, rounds := msg.ParseHeaders();
      }
    }

    method Parse() returns (result: Phase)
      requires Valid()
      modifies this, msg, msg.buffer
      ensures Valid() && result == status && View() == RequestSpec.Parse(old(View()))
      ensures Fed() == old(Fed())
    {
      hide HeadStage, RequestSpec.ChunkLoop, CheckChunked;
      ghost var p := View();
      ParseHead();
      ghost var k := PreBodyStage(View());
      status := SkipBody();
      assert View() == k;
      if status == Body {
        status := msg.ParseBodyContentLen();
      }
      if status == Chunk {
        ghost var rounds;
        status, rounds := msg.ParseBodyChunked();
      }
      assert View() == BodyStage(k) == RequestSpec.Parse(p);
      return status;
    }

    /** Without a body the request is complete; with one, the headers say how it is framed. */
    method SkipBody() returns (phase: Phase)
      requires msg.Valid()
      ensures View().(phase := phase) == PreBodyStage(View())
      ensures phase == Body && status != Body ==>
        var length := HeaderValue(msg.headers, "Content-Length");
        forall i :: 0 <= i < |length| ==> !IsDigit(length[i])
    {
      phase := status;
      if verb != POST && verb != PUT {
        if phase == PreBody {
          phase := Complete;
        }
      }
      if phase == PreBody {
        phase := msg.CheckChunkedBody();
      }
    }

    /** HTTPRequest::create; None stands for NULL. */
    method Create() returns (bytes: Option<string>)
      requires msg.Valid() && (msg.data.Some? ==> |msg.data.value| == msg.dataLen)
      requires |requestUri| + |msg.version| + |PrintFields(msg.headers)| + msg.dataLen <= INT_MAX - 20
      modifies msg.buffer
      ensures msg.Valid()
      ensures bytes.None? <==> verb < HEAD || verb > DELETE
      ensures bytes.Some? ==>
        var body := if msg.data.Some? then msg.data.value else "";
        bytes.value == PrintRequest(verb, requestUri, msg.version, msg.headers, body)
    {
      var mstr := MethodName(verb);
      if mstr == "" {
        msg.buffer.Clear();
        return None;
      }
      var printed := msg.Print(mstr + " " + requestUri + " " + msg.version);
      return Some(printed);
    }
  }

  /** A new request to which the segments are given one by one, with a call of parse after each: no
      byte of them is lost, repeated or out of place. */
  method ReceiveAll(segments: seq<string>) returns (req: HttpRequest)
    requires |Flatten(segments)| <= INT_MAX
    ensures req.Valid() && req.View() == Segmentation.Deliver(Fresh(""), segments)
    ensures req.Fed() == Flatten(segments)
  {
    hide RequestSpec.Parse, RequestSpec.Inv;
    req := new HttpRequest("");
    assert segments[..|segments|] == segments;
    for i := 0 to |segments|
      invariant fresh(req) && fresh(req.msg) && fresh(req.msg.buffer) && req.Valid()
      invariant req.View() == Segmentation.Deliver(Fresh(""), segments[..i]) && req.Fed() == Flatten(segments[..i])
    {
      var front := segments[..i + 1];
      assert front[..|front| - 1] == segments[..i] && front[|front| - 1] == segments[i];
      Segmentation.FlattenLast(front);
      assert segments == front + segments[i + 1..];
      FlattenAppend(front, segments[i + 1..]);
      req.PutString(segments[i]);
      var phase := req.Parse();
    }
  }
}
