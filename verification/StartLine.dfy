/** Which request lines the parser accepts, and what it makes of their targets. */
module StartLines {
  import opened Text
  import opened CLib
  import opened RequestSpec

  /** The first path segment has a dot and is not the whole target. */
  predicate HasDottedDir(target: string) {
    exists s :: 1 <= s < |target| && target[s] == '/' && '/' !in target[1..s] && '.' in target[..s]
  }

  predicate IsTarget(target: string) {
    target != "" && target[0] == '/' && ' ' !in target && !HasDottedDir(target)
  }

  /** A word of capital letters. */
  predicate IsName(name: string) {
    name != "" && forall i :: 0 <= i < |name| ==> name[i] in "ABCDEFGHIJKLMNOPQRSTUVWXYZ"
  }

  lemma NameIsUpper(name: string)
    ensures IsName(name) <==> name != "" && AllUpper(name)
  {
    hide IsUpper;
    forall i | 0 <= i < |name| ensures IsUpper(name[i]) <==> name[i] in "ABCDEFGHIJKLMNOPQRSTUVWXYZ" {
      UpperIs(name[i]);
    }
  }

  /** The numbers of the five methods; any other word has none. */
  lemma MethodIdExact(name: string)
    requires IsName(name)
    ensures MethodId(name) ==
      if name == "HEAD" then 0 else if name == "GET" then 1 else if name == "POST" then 2
      else if name == "PUT" then 3 else if name == "DELETE" then 4 else -1
  {
    NoNul(name);
    assert CString(name) == name;
  }

  lemma NoNul(name: string)
    requires IsName(name)
    ensures '\0' !in name && ' ' !in name && '\r' !in name
  {
    hide IsName;
    NameIsUpper(name);
  }

  function RequestLine(name: string, target: string): string {
    name + " " + target + " HTTP/1.1"
  }

  lemma SplitWordAt(word: string, rest: string)
    requires ' ' !in word
    ensures SplitWord(word + " " + rest) == (word, rest)
  {
    var line := word + " " + rest;
    assert forall j :: 0 <= j < |word| ==> line[j] == word[j];
    IndexOfIs(line, ' ', 0, |word|);
    assert line[..|word|] == word && line[|word| + 1..] == rest;
  }

  lemma SecondSlash(target: string)
    requires target != "" && target[0] == '/'
    ensures SplitTarget(target, "").Some? <==> !HasDottedDir(target)
  {
    var i := IndexOf(target, '/', 1);
    if i < |target| {
      assert target[1..i] == target[1..i] && '/' !in target[1..i];
      if HasDottedDir(target) {
        var s :| 1 <= s < |target| && target[s] == '/' && '/' !in target[1..s] && '.' in target[..s];
        assert forall j :: 1 <= j < s ==> target[j] == target[1..s][j - 1];
        IndexOfIs(target, '/', 1, s);
      }
    }
  }

  /** How an accepted target is stored: cut at the second slash, except that a dotted file name
      in the root is kept whole behind "/". */
  predicate Stored(target: string, dir: string, uri: string) {
    if '.' in target && '/' !in target[1..] then dir == "/" && uri == target
    else dir != "" && dir + uri == target && '/' !in dir[1..] && (uri == "" || uri[0] == '/')
  }

  lemma TargetStored(target: string)
    requires IsTarget(target)
    ensures
      var parts := SplitTarget(target, "");
      parts.Some? && Stored(target, parts.value.0, parts.value.1)
  {
    SecondSlash(target);
    var i := IndexOf(target, '/', 1);
    if i == |target| {
      assert '/' !in target[1..] && target[..i] == target;
      assert target + "" == target;
    } else {
      assert target[1..][i - 1] == '/';
      assert target[..i] + target[i..] == target;
      assert '/' !in target[..i][1..];
    }
  }

  /** A request line is accepted, with its method, target and version. */
  lemma RequestLineAccepted(p: State, name: string, target: string)
    requires p.m.rpos <= |p.m.buf| && p.requestUri == ""
    requires IsName(name) && IsTarget(target)
    ensures
      var parts := SplitTarget(target, "");
      && parts.Some? && Stored(target, parts.value.0, parts.value.1)
      && ReadStartLine(p, RequestLine(name, target)) ==
           State(Headers, MethodId(name), parts.value.0, parts.value.1,
                 p.m.(version := HTTP_1_1, buf := p.m.buf[p.m.rpos..], rpos := 0))
  {
    hide IsName;
    NameIsUpper(name);
    NoNul(name);
    var rest := target + " " + HTTP_1_1;
    assert RequestLine(name, target) == name + " " + rest;
    SplitWordAt(name, rest);
    SplitWordAt(target, HTTP_1_1);
    TargetStored(target);
  }

  lemma WordSplit(line: string)
    requires IndexOf(line, ' ') < |line|
    ensures ' ' !in SplitWord(line).0 && line == SplitWord(line).0 + " " + SplitWord(line).1
  {
    Cut(line, IndexOf(line, ' '));
  }

  lemma Cut(line: string, k: nat)
    requires k < |line| && line[k] == ' '
    ensures line == line[..k] + " " + line[k + 1..]
  {
  }

  /** Nothing else is: in particular, where find gives -1 the line is refused. */
  lemma AcceptedRequestLine(p: State, line: string) returns (name: string, target: string)
    requires p.m.rpos <= |p.m.buf| && p.requestUri == ""
    requires ReadStartLine(p, line).phase == Headers
    ensures IsName(name) && IsTarget(target) && line == RequestLine(name, target)
  {
    hide MethodId, AllUpper, HasDottedDir, IsName, SplitTarget, RequestLine, IndexOf;
    var first := SplitWord(line);
    var second := SplitWord(first.1);
    name, target := first.0, second.0;
    assert AllUpper(name) && name != "" && SplitTarget(target, "").Some? && second.1 == HTTP_1_1;
    NameIsUpper(name);
    TargetAccepted(target);
    SpaceBehindName(line);
    WordSplit(line);
    SpaceBehindTarget(first.1);
    WordSplit(first.1);
    Parts(name, target);
  }

  lemma SpaceBehindName(line: string)
    requires SplitWord(line).0 != "" && AllUpper(SplitWord(line).0)
    requires SplitWord(SplitWord(line).1).0 != "" && SplitWord(SplitWord(line).1).0[0] == '/'
    ensures IndexOf(line, ' ') < |line|
  {
  }

  lemma Parts(name: string, target: string)
    ensures RequestLine(name, target) == name + " " + (target + " " + HTTP_1_1)
  {
  }

  lemma SpaceBehindTarget(rest: string)
    requires SplitWord(rest).0 != "" && SplitWord(rest).0[0] == '/' && SplitWord(rest).1 == HTTP_1_1
    ensures IndexOf(rest, ' ') < |rest|
  {
  }

  lemma TargetAccepted(target: string)
    requires SplitTarget(target, "").Some?
    ensures target != "" && target[0] == '/' && !HasDottedDir(target)
  {
    hide HasDottedDir;
    assert target != "" && target[0] == '/';
    SecondSlash(target);
  }

  /** The start line is accepted exactly when it is an upper-case method, one space, a target
      that begins with "/" and has no dotted directory first, one space, and HTTP/1.1. */
  lemma StartLineExact(p: State, line: string)
    requires p.m.rpos <= |p.m.buf| && p.requestUri == ""
    ensures ReadStartLine(p, line).phase == Headers
       <==> exists name, target :: IsName(name) && IsTarget(target) && line == RequestLine(name, target)
  {
    if ReadStartLine(p, line).phase == Headers {
      var name, target := AcceptedRequestLine(p, line);
    }
    if name, target :| IsName(name) && IsTarget(target) && line == RequestLine(name, target) {
      RequestLineAccepted(p, name, target);
    }
  }

  /** A refused line sets the method all the same when its first word, the whole line if it has no
      space, is a word of capital letters. */
  lemma RefusedLine(p: State, line: string, word: string)
    requires p.m.rpos <= |p.m.buf| && ReadStartLine(p, line).phase == BadRequest
    requires ' ' !in word && (line == word || exists rest :: line == word + " " + rest)
    ensures ReadStartLine(p, line).verb == if IsName(word) then MethodId(word) else p.verb
  {
    hide MethodId, SplitTarget, IsName, AllUpper;
    NameIsUpper(word);
    if line == word {
      IndexOfIs(line, ' ', 0, |line|);
    } else {
      var rest :| line == word + " " + rest;
      SplitWordAt(word, rest);
    }
  }
}
