/** What the answers say, on their bytes: status line, headers and body, for each kind of request. */
module Answers {
  import opened Wrappers
  import opened Text
  import opened Fields
  import opened CLib
  import opened Libft
  import opened RequestSpec
  import opened Responses
  import opened ConfigSpec
  import opened Cgi
  import opened ServerSpec
  import Heads

  // -------------------------------------------------------------- responses

  /** The headers that every response gets behind its own. */
  function Common(close: bool, date: string): seq<Field> {
    [Field("Server", "httpserver/1.0"), Field("Date", date)] + if close then [Field("Connection", "close")] else []
  }

  /** The bytes are this status line, the headers in map order, the first value given to each key, a
      blank line and the body; the connection is to be closed behind them if `close`. */
  ghost predicate IsResponse(r: Reply, line: string, fields: seq<Field>, body: string, close: bool, w: World) {
    && r.disconnect == close
    && exists headers ::
      && Sorted(headers)
      && (forall key :: Lookup(headers, key) == Lookup(fields + Common(close, w.date), key))
      && PrintReply(r) == line + "\r\n" + PrintFields(headers) + body
  }

  function TextLength(n: nat): Field { Field("Content-Length", Decimal(ToInt32(n))) }

  /** A text that is cut at its first NUL and filled up with NULs. */
  predicate IsPadded(s: string, text: string) {
    |s| == |text| && forall i :: 0 <= i < |s| ==> s[i] == if '\0' in text[..i + 1] then '\0' else text[i]
  }

  /** A page of plain text, without its text for HEAD. */
  ghost predicate IsPage(r: Reply, line: string, text: string, verb: int, w: World) {
    exists s :: IsPadded(s, text) &&
      IsResponse(r, line, [Field("Content-Type", "text/plain"), TextLength(|text|)], if verb == 0 then "" else s,
          false, w)
  }

  lemma {:induction false} CStringIs(s: string, i: nat)
    requires i < |s|
    ensures i < |CString(s)| <==> '\0' !in s[..i + 1]
  {
    if s[0] != '\0' {
      if i > 0 {
        CStringIs(s[1..], i - 1);
        assert s[..i + 1] == [s[0]] + s[1..][..i];
      } else {
        assert s[..1] == [s[0]];
      }
    } else {
      assert s[..i + 1][0] == '\0';
    }
  }

  lemma PaddedIs(text: string)
    ensures IsPadded(StrNCpy(text), text)
  {
    hide CString;
    forall i | 0 <= i < |text| ensures StrNCpy(text)[i] == if '\0' in text[..i + 1] then '\0' else text[i] {
      CStringIs(text, i);
    }
  }

  /** A page without NUL is sent as it is. */
  lemma PlainPage(s: string, text: string)
    requires IsPadded(s, text) && '\0' !in text
    ensures s == text
  {
  }

  lemma ThreeDigits(n: nat)
    requires 100 <= n < 1000
    ensures Decimal(n) == [DigitChar(n / 100), DigitChar(n / 10 % 10), DigitChar(n % 10)]
  {
    assert DigitsOf(n / 100) == [DigitChar(n / 100)];
    assert n / 10 / 10 == n / 100;
    assert DigitsOf(n / 10) == DigitsOf(n / 100) + [DigitChar(n / 10 % 10)];
  }

  lemma LineIs(status: int, line: string, code: string, reason: string)
    requires 100 <= status < 1000 && Reason(status, "") == reason
    requires |code| == 3 && code[0] == DigitChar(status / 100)
    requires code[1] == DigitChar(status / 10 % 10) && code[2] == DigitChar(status % 10)
    requires line == "HTTP/1.1 " + code + " " + reason
    ensures StatusLine(status, Reason(status, "")) == line
  {
    hide Reason, Decimal, DigitChar;
    ThreeDigits(status);
    assert code == Decimal(status);
    assert HTTP_1_1 + " " == "HTTP/1.1 ";
  }

  lemma Line200()
    ensures StatusLine(200, Reason(200, "")) == "HTTP/1.1 200 OK"
  {
    LineIs(200, "HTTP/1.1 200 OK", "200", "OK");
  }

  lemma Line201()
    ensures StatusLine(201, Reason(201, "")) == "HTTP/1.1 201 Created"
  {
    LineIs(201, "HTTP/1.1 201 Created", "201", "Created");
  }

  lemma Line204()
    ensures StatusLine(204, Reason(204, "")) == "HTTP/1.1 204 No Content"
  {
    LineIs(204, "HTTP/1.1 204 No Content", "204", "No Content");
  }

  lemma Line301()
    ensures StatusLine(301, Reason(301, "")) == "HTTP/1.1 301 Moved Permantly"
  {
    LineIs(301, "HTTP/1.1 301 Moved Permantly", "301", "Moved Permantly");
  }

  lemma Line302()
    ensures StatusLine(302, Reason(302, "")) == "HTTP/1.1 302 Found"
  {
    LineIs(302, "HTTP/1.1 302 Found", "302", "Found");
  }

  lemma Line400()
    ensures StatusLine(400, Reason(400, "")) == "HTTP/1.1 400 Bad Request"
  {
    LineIs(400, "HTTP/1.1 400 Bad Request", "400", "Bad Request");
  }

  lemma Line404()
    ensures StatusLine(404, Reason(404, "")) == "HTTP/1.1 404 Not Found"
  {
    LineIs(404, "HTTP/1.1 404 Not Found", "404", "Not Found");
  }

  lemma Line405()
    ensures StatusLine(405, Reason(405, "")) == "HTTP/1.1 405 Method Not Allowed"
  {
    LineIs(405, "HTTP/1.1 405 Method Not Allowed", "405", "Method Not Allowed");
  }

  lemma Line413()
    ensures StatusLine(413, Reason(413, "")) == "HTTP/1.1 413 Request Entity Too Large"
  {
    LineIs(413, "HTTP/1.1 413 Request Entity Too Large", "413", "Request Entity Too Large");
  }

  lemma Line501()
    ensures StatusLine(501, Reason(501, "")) == "HTTP/1.1 501 Not Implemented"
  {
    LineIs(501, "HTTP/1.1 501 Not Implemented", "501", "Not Implemented");
  }

  /** Every response is printed so. */
  lemma ResponseIs(status: int, fields: seq<Field>, body: Option<string>, close: bool, w: World)
    ensures IsResponse(Response(status, fields, body, close, w), StatusLine(status, Reason(status, "")), fields,
                       if body.Some? then body.value else "", close, w)
  {
    hide InsertAll, Sorted, StatusLine, Reason, Lookup, PrintFields;
    var own := InsertAll([], fields);
    var headers := Completed(own, close, w);
    forall key ensures Lookup(headers, key) == Lookup(fields + Common(close, w.date), key) && Sorted(headers) {
      NothingYet(key);
      InsertAllLookup([], fields, key);
      InsertAllLookup(own, Common(close, w.date), key);
      LookupAppend(fields, Common(close, w.date), key);
    }
    assert Sorted(headers) by {
      NothingYet("");
      InsertAllLookup([], fields, "");
      InsertAllLookup(own, Common(close, w.date), "");
    }
  }

  lemma NothingYet(key: string)
    ensures Lookup([], key) == None && Sorted([])
  {
  }

  lemma PageIs(status: int, text: string, verb: int, w: World)
    requires text == if status == 404 then w.errorPage else Reason(status, "")
    ensures IsPage(StatusReply(status, verb, w), StatusLine(status, Reason(status, "")), text, verb, w)
  {
    hide IsResponse, StatusLine, Reason, IsPadded, StrNCpy;
    PaddedIs(text);
    var fields := [Field("Content-Type", "text/plain"), TextLength(|text|)];
    ResponseIs(status, fields, if verb == 0 then None else Some(StrNCpy(text)), false, w);
  }

  // -------------------------------------------------- which server, which place

  /** The value of a header: under its name, or else under its name in small letters, or nothing. */
  ghost predicate IsHeader(headers: FieldMap, key: string, lower: string, value: string) {
    || Lookup(headers, key) == Some(value)
    || (Lookup(headers, key) == None && Lookup(headers, lower) == Some(value))
    || (Lookup(headers, key) == None && Lookup(headers, lower) == None && value == "")
  }

  lemma HeaderIs(headers: FieldMap, key: string, lower: string, value: string)
    requires Lower(key) == lower
    ensures IsHeader(headers, key, lower, value) <==> HeaderValue(headers, key) == value
  {
  }

  /** The server that answers: the first listed one with the active listen value and the host among its
      names, or else the active one. */
  ghost predicate IsChosen(listed: seq<Settings>, active: Settings, p: State, s: Settings) {
    exists host :: IsHeader(p.m.headers, "Host", "host", host) &&
      exists k :: 0 <= k <= |listed|
        && (forall j :: 0 <= j < k ==> !(listed[j].listen == active.listen && host in listed[j].serverName))
        && (if k < |listed| then listed[k].listen == active.listen && host in listed[k].serverName && s == listed[k]
            else s == active)
  }

  /** Its location, and the request URI below it: the first with the config_dir of the request as its
      uri, or else the first of all, with the target put together again. */
  ghost predicate IsPlace(s: Settings, p: State, k: nat, uri: string) {
    && k < |s.locations|
    && if exists j :: 0 <= j < |s.locations| && s.locations[j].uri == p.configDir then
         && s.locations[k].uri == p.configDir && uri == p.requestUri
         && forall j :: 0 <= j < k ==> s.locations[j].uri != p.configDir
       else k == 0 && uri == p.configDir + p.requestUri
  }

  /** A complete request that location k of the server s answers. */
  ghost predicate Serving(listed: seq<Settings>, active: Settings, p: State, w: World, s: Settings, k: nat,
      uri: string) {
    p.phase == Complete && IsChosen(listed, active, p, s) && IsPlace(s, p, k, uri) && Sane(w)
  }

  lemma PlaceIs(s: Settings, p: State, k: nat, uri: string)
    requires |s.locations| > 0
    ensures IsPlace(s, p, k, uri) <==> Located(s, p) == (k, uri)
  {
    var n := LocationIndex(s.locations, p.configDir);
    assert n == |s.locations| || s.locations[n].uri == p.configDir;
    if IsPlace(s, p, k, uri) && n < |s.locations| { assert s.locations[k].uri == p.configDir; }
  }

  lemma ChosenIs(listed: seq<Settings>, active: Settings, p: State, s: Settings)
    requires p.phase == Complete && IsChosen(listed, active, p, s)
    ensures Chosen(listed, active, p) == s
  {
    hide SelectConfig, HeaderValue;
    var host :| IsHeader(p.m.headers, "Host", "host", host) &&
      exists k :: 0 <= k <= |listed|
        && (forall j :: 0 <= j < k ==> !(listed[j].listen == active.listen && host in listed[j].serverName))
        && (if k < |listed| then listed[k].listen == active.listen && host in listed[k].serverName && s == listed[k]
            else s == active);
    var k :| 0 <= k <= |listed|
        && (forall j :: 0 <= j < k ==> !(listed[j].listen == active.listen && host in listed[j].serverName))
        && (if k < |listed| then listed[k].listen == active.listen && host in listed[k].serverName && s == listed[k]
            else s == active);
    Heads.LowerHost();
    HeaderIs(p.m.headers, "Host", "host", host);
    SelectFirst(listed, active, host, k);
  }
  /** Some server and some place of it answer every complete request. */
  lemma SomePlace(listed: seq<Settings>, active: Settings, p: State, w: World)
    requires p.phase == Complete && Sane(w) && AllServe(listed) && Serves(active)
    ensures var s := Chosen(listed, active, p);
      |s.locations| > 0 && Serving(listed, active, p, w, s, Located(s, p).0, Located(s, p).1)
  {
    hide Serves, HeaderValue;
    var host := HeaderValue(p.m.headers, "Host");
    Heads.LowerHost();
    HeaderIs(p.m.headers, "Host", "host", host);
    ChosenServes(listed, active, p);
    var k := FirstNaming(listed, active, host);
    SelectFirst(listed, active, host, k);
    var s := Chosen(listed, active, p);
    HasLocations(s);
    PlaceIs(s, p, Located(s, p).0, Located(s, p).1);
  }

  lemma HasLocations(s: Settings)
    requires Serves(s)
    ensures |s.locations| > 0
  {
  }

  lemma {:induction false} FirstNaming(listed: seq<Settings>, active: Settings, host: string) returns (k: nat)
    ensures k <= |listed|
    ensures forall j :: 0 <= j < k ==> !(listed[j].listen == active.listen && host in listed[j].serverName)
    ensures k < |listed| ==> listed[k].listen == active.listen && host in listed[k].serverName
  {
    if listed == [] || (listed[0].listen == active.listen && host in listed[0].serverName) {
      k := 0;
    } else {
      k := FirstNaming(listed[1..], active, host);
      k := k + 1;
    }
  }

  // ---------------------------------------------------------------- verdicts

  /** The methods a location allows, by their names. */
  ghost predicate Allows(l: Settings, verb: int) {
    || (verb == 0 && "HEAD" in l.methods) || (verb == 1 && "GET" in l.methods) || (verb == 2 && "POST" in l.methods)
    || (verb == 3 && "PUT" in l.methods) || (verb == 4 && "DELETE" in l.methods)
  }

  /** A CGI program runs when its extension stands anywhere in the request URI. */
  ghost predicate RunsCgi(l: Settings, uri: string) {
    l.cgiExt != "" && exists before, behind :: uri == before + l.cgiExt + behind
  }

  lemma CgiIs(l: Settings, uri: string)
    ensures IsCgi(l, uri) <==> RunsCgi(l, uri)
  {
    if l.cgiExt != "" {
      var n := Find(uri, l.cgiExt);
      if n < |uri| {
        assert Occurs(uri, l.cgiExt, n);
        assert uri == uri[..n] + l.cgiExt + uri[n + |l.cgiExt|..];
      }
      if before, behind :| uri == before + l.cgiExt + behind {
        assert uri[|before|..|before| + |l.cgiExt|] == l.cgiExt;
        assert Occurs(uri, l.cgiExt, |before|);
      }
    }
  }

  ghost predicate Redirects(l: Settings, k: nat) { k != 0 && l.statusCode != 0 && l.redir != "" }

  ghost predicate Closes(p: State) { IsHeader(p.m.headers, "Connection", "connection", "close") }

  lemma ClosesIs(p: State)
    ensures WantsClose(p) <==> Closes(p)
  {
    hide HeaderValue;
    Heads.LowerConnection();
    HeaderIs(p.m.headers, "Connection", "connection", "close");
  }

  predicate TooLong(l: Settings, body: string) { l.maxBodySize != 0 && |body| > l.maxBodySize }

  /** The place that Serving names is the one that answers. */
  lemma ServedBy(listed: seq<Settings>, active: Settings, p: State, w: World, s: Settings, k: nat, uri: string)
    requires Serving(listed, active, p, w, s, k, uri)
    ensures |Chosen(listed, active, p).locations| > 0 && k < |s.locations|
    ensures Answer(listed, active, p, w) == VerdictAt(s.locations[k], k, uri, p, w)
  {
    hide IsPlace, IsChosen, MethodReply, StatusReply, Chosen, LocationIndex;
    ChosenIs(listed, active, p, s);
    InPlace(s, p, k, uri);
    PlaceIs(s, p, k, uri);
  }

  lemma InPlace(s: Settings, p: State, k: nat, uri: string)
    requires IsPlace(s, p, k, uri)
    ensures k < |s.locations|
  {
  }

  /** Verdict with its place known. */
  function VerdictAt(l: Settings, k: nat, uri: string, p: State, w: World): Reply
    requires Sane(w)
  {
    if MethodName(p.verb) !in l.methods then StatusReply(METHOD_NOT_ALLOW, p.verb, w)
    else if IsRedirect(l, k) then
      if p.verb != GET then StatusReply(METHOD_NOT_ALLOW, p.verb, w)
      else if l.statusCode == MOVED_PERMANENTLY || l.statusCode == FOUND then
        Response(l.statusCode, [Field("Location", l.redir)], None, false, w)
      else StatusReply(Responses.BAD_REQUEST, p.verb, w)
    else MethodReply(l.maxBodySize, p.(requestUri := uri), IsCgi(l, uri), w)
  }

  lemma AllowsIs(l: Settings, verb: int)
    requires "" !in l.methods
    ensures Allows(l, verb) <==> MethodName(verb) in l.methods
  {
  }

  /** A refused request gets 400 from the active server. */
  lemma RefusedAnswer(listed: seq<Settings>, active: Settings, p: State, w: World)
    requires p.phase == RequestSpec.BadRequest && Sane(w) && |active.locations| > 0
    ensures Chosen(listed, active, p) == active
    ensures IsPage(Answer(listed, active, p, w), "HTTP/1.1 400 Bad Request", "Bad Request", p.verb, w)
  {
    hide StatusReply, IsPage;
    Line400();
    PageIs(400, "Bad Request", p.verb, w);
  }

  /** A method that the location does not allow, and any word that is no method, gets 405. */
  lemma DisallowedAnswer(listed: seq<Settings>, active: Settings, p: State, w: World, s: Settings, k: nat,
      uri: string)
    requires Serving(listed, active, p, w, s, k, uri) && "" !in s.locations[k].methods && !Allows(s.locations[k],
        p.verb)
    ensures |Chosen(listed, active, p).locations| > 0
    ensures IsPage(Answer(listed, active, p, w), "HTTP/1.1 405 Method Not Allowed", "Method Not Allowed", p.verb, w)
  {
    hide Serving, Answer, Chosen, StatusReply, MethodReply, IsPage, Allows, MethodName;
    ServedBy(listed, active, p, w, s, k, uri);
    AllowsIs(s.locations[k], p.verb);
    Line405();
    PageIs(405, "Method Not Allowed", p.verb, w);
  }

  /** A redirecting location: 301 or 302 with the new place for GET, 400 for any other code, and 405 for
      any other method. */
  lemma RedirectAnswer(listed: seq<Settings>, active: Settings, p: State, w: World, s: Settings, k: nat, uri: string)
    requires Serving(listed, active, p, w, s, k, uri) && "" !in s.locations[k].methods
    requires Allows(s.locations[k], p.verb) && Redirects(s.locations[k], k)
    ensures |Chosen(listed, active, p).locations| > 0
    ensures
      var l, r := s.locations[k], Answer(listed, active, p, w);
      if p.verb != 1 then IsPage(r, "HTTP/1.1 405 Method Not Allowed", "Method Not Allowed", p.verb, w)
      else if l.statusCode == 301 then
        IsResponse(r, "HTTP/1.1 301 Moved Permantly", [Field("Location", l.redir)], "", false, w)
      else if l.statusCode == 302 then
        IsResponse(r, "HTTP/1.1 302 Found", [Field("Location", l.redir)], "", false, w)
      else IsPage(r, "HTTP/1.1 400 Bad Request", "Bad Request", p.verb, w)
  {
    hide Serving, Answer, Chosen, StatusReply, MethodReply, IsPage, IsResponse, Allows, MethodName, Response;
    ServedBy(listed, active, p, w, s, k, uri);
    var l := s.locations[k];
    AllowsIs(l, p.verb);
    Line301();
    Line302();
    Line400();
    Line405();
    PageIs(405, "Method Not Allowed", p.verb, w);
    PageIs(400, "Bad Request", p.verb, w);
    ResponseIs(l.statusCode, [Field("Location", l.redir)], None, false, w);
  }

  /** The request goes on to the handler of its method. */
  ghost predicate Handled(listed: seq<Settings>, active: Settings, p: State, w: World, s: Settings, k: nat,
      uri: string) {
    && Serving(listed, active, p, w, s, k, uri) && "" !in s.locations[k].methods
    && Allows(s.locations[k], p.verb) && !Redirects(s.locations[k], k)
  }

  lemma HandledBy(listed: seq<Settings>, active: Settings, p: State, w: World, s: Settings, k: nat, uri: string)
    requires Handled(listed, active, p, w, s, k, uri)
    ensures |Chosen(listed, active, p).locations| > 0 && Sane(w) && k < |s.locations|
    ensures Answer(listed, active, p, w)
         == MethodReply(s.locations[k].maxBodySize, p.(requestUri := uri), RunsCgi(s.locations[k], uri), w)
  {
    hide Answer, Chosen, StatusReply, MethodReply, MethodName, RunsCgi, IsChosen, IsPlace, Allows;
    ServedBy(listed, active, p, w, s, k, uri);
    InPlace(s, p, k, uri);
    AllowsIs(s.locations[k], p.verb);
    CgiIs(s.locations[k], uri);
  }

  /** The headers and the body that a CGI program gave, if one ran. */
  ghost predicate CgiGave(l: Settings, uri: string, w: World, own: seq<Field>, output: string) {
    if RunsCgi(l, uri) then Scan(w.cgiOutput) == Some((own, output)) else own == []
  }

  /** A response with a body that the limit of the location allows, or 413. */
  ghost predicate IsWithin(r: Reply, l: Settings, line: string, fields: seq<Field>, body: string, p: State,
      w: World) {
    if TooLong(l, body) then
      IsPage(r, "HTTP/1.1 413 Request Entity Too Large", "Request Entity Too Large", p.verb, w)
    else IsResponse(r, line, fields, body, Closes(p), w)
  }

  lemma WithinIs(status: int, fields: seq<Field>, body: Option<string>, p: State, l: Settings, w: World)
    ensures
      var r := Limited(Response(status, fields, body, WantsClose(p), w), l.maxBodySize, p.verb, w);
      IsWithin(r, l, StatusLine(status, Reason(status, "")), fields, if body.Some? then body.value else "", p, w)
  {
    hide IsPage, IsResponse, StatusReply, StatusLine, Reason, Closes, WantsClose, Completed;
    ClosesIs(p);
    ResponseIs(status, fields, body, WantsClose(p), w);
    TooLargeReason();
    Line413();
    PageIs(413, "Request Entity Too Large", p.verb, w);
  }

  lemma TooLargeReason()
    ensures Reason(413, "") == "Request Entity Too Large"
  {
  }

  /** GET and HEAD: 404 without a resource; else the resource, or what a CGI program gave, with 200, or with
      404 when it is a directory; no body for HEAD. */
  lemma GetAnswer(listed: seq<Settings>, active: Settings, p: State, w: World, s: Settings, k: nat, uri: string,
      own: seq<Field>, output: string)
    requires Handled(listed, active, p, w, s, k, uri) && CgiGave(s.locations[k], uri, w, own, output)
    requires p.verb == 0 || p.verb == 1
    ensures |Chosen(listed, active, p).locations| > 0
    ensures
      var l, r := s.locations[k], Answer(listed, active, p, w);
      match w.resource
      case None => IsPage(r, "HTTP/1.1 404 Not Found", w.errorPage, p.verb, w)
      case Some(f) =>
        var body := if p.verb == 0 then "" else if RunsCgi(l, uri) then output else f.data;
        IsWithin(r, l, if f.isDirectory then "HTTP/1.1 404 Not Found" else "HTTP/1.1 200 OK",
                 own + [Field("Content-Type", f.mime), TextLength(|f.data|)], body, p, w)
  {
    hide Answer, Chosen, Scan, StatusReply, IsPage, IsWithin, Serving, Allows, Redirects, RunsCgi, WantsClose,
        Limited, Response;
    HandledBy(listed, active, p, w, s, k, uri);
    var l := s.locations[k];
    Line404();
    Line200();
    PageIs(404, w.errorPage, p.verb, w);
    if w.resource.Some? {
      var f, cgi := w.resource.value, RunsCgi(l, uri);
      var fields := own + [Field("Content-Type", f.mime), TextLength(|f.data|)];
      var body := if p.verb == 0 then None else if cgi then Some(output) else Some(f.data);
      SameClose(p, uri);
      WithinIs(if f.isDirectory then 404 else 200, fields, body, p, l, w);
    }
  }

  lemma SameClose(p: State, uri: string)
    ensures WantsClose(p.(requestUri := uri)) == WantsClose(p)
  {
  }

  /** POST: 200 with the body of the request, or what a CGI program gave, when there is a resource; else
      201 with its place, or 501 when no file can be made. */
  lemma PostAnswer(listed: seq<Settings>, active: Settings, p: State, w: World, s: Settings, k: nat, uri: string,
      own: seq<Field>, output: string)
    requires Handled(listed, active, p, w, s, k, uri) && CgiGave(s.locations[k], uri, w, own, output)
    requires p.verb == 2
    ensures |Chosen(listed, active, p).locations| > 0
    ensures
      var l, r := s.locations[k], Answer(listed, active, p, w);
      var cgi := RunsCgi(l, uri);
      var length := TextLength(if cgi then |output| else p.m.dataLen);
      match w.resource
      case Some(f) =>
        var body := if cgi then output else if p.m.data.Some? then p.m.data.value else "";
        IsWithin(r, l, "HTTP/1.1 200 OK", own + [Field("Content-Type", f.mime), length], body, p, w)
      case None =>
        if !w.canOpen then IsPage(r, "HTTP/1.1 501 Not Implemented", "Not Implemented", p.verb, w)
        else IsWithin(r, l, "HTTP/1.1 201 Created", own + [Field("Location", uri), length],
            if cgi then output else "", p, w)
  {
    hide Answer, Chosen, Scan, StatusReply, IsPage, IsWithin, Serving, Allows, Redirects, RunsCgi, WantsClose,
        Limited, Response;
    HandledBy(listed, active, p, w, s, k, uri);
    var l, cgi := s.locations[k], RunsCgi(s.locations[k], uri);
    Line200();
    Line201();
    Line501();
    NotImplementedReason();
    PageIs(501, "Not Implemented", p.verb, w);
    SameClose(p, uri);
    var length := TextLength(if cgi then |output| else p.m.dataLen);
    if w.resource.Some? {
      var fields := own + [Field("Content-Type", w.resource.value.mime), length];
      WithinIs(200, fields, if cgi then Some(output) else p.m.data, p, l, w);
    } else {
      WithinIs(201, own + [Field("Location", uri), length], if cgi then Some(output) else None, p, l, w);
    }
  }

  lemma NotImplementedReason()
    ensures Reason(501, "") == "Not Implemented"
  {
  }

  /** PUT: 204 with its place when there is a resource, else 201, or 501 when no file can be opened. */
  lemma PutAnswer(listed: seq<Settings>, active: Settings, p: State, w: World, s: Settings, k: nat, uri: string,
      own: seq<Field>, output: string)
    requires Handled(listed, active, p, w, s, k, uri) && CgiGave(s.locations[k], uri, w, own, output)
    requires p.verb == 3
    ensures |Chosen(listed, active, p).locations| > 0
    ensures
      var r := Answer(listed, active, p, w);
      if !w.canOpen then IsPage(r, "HTTP/1.1 501 Not Implemented", "Not Implemented", p.verb, w)
      else
        match w.resource
        case None =>
          IsResponse(r, "HTTP/1.1 201 Created",
                     own + [Field("Location", w.basePath + uri), Field("Content-Length", "0")], "", Closes(p), w)
        case Some(f) =>
          IsResponse(r, "HTTP/1.1 204 No Content", own + [Field("Location", f.location)], "", Closes(p), w)
  {
    hide Answer, Chosen, Scan, StatusReply, IsPage, IsResponse, Serving, Allows, Redirects, RunsCgi, WantsClose,
        Closes, Response;
    HandledBy(listed, active, p, w, s, k, uri);
    Line201();
    Line204();
    Line501();
    NotImplementedReason();
    PageIs(501, "Not Implemented", p.verb, w);
    SameClose(p, uri);
    ClosesIs(p);
    var made := own + [Field("Location", w.basePath + uri), Field("Content-Length", "0")];
    ResponseIs(201, made, None, WantsClose(p), w);
    if w.resource.Some? { ResponseIs(204, own + [Field("Location", w.resource.value.location)], None,
        WantsClose(p), w); }
  }

  /** DELETE: 200 with a page that says so, or 404 without a resource. */
  lemma DeleteAnswer(listed: seq<Settings>, active: Settings, p: State, w: World, s: Settings, k: nat, uri: string)
    requires Handled(listed, active, p, w, s, k, uri) && p.verb == 4
    ensures |Chosen(listed, active, p).locations| > 0
    ensures
      var l, r := s.locations[k], Answer(listed, active, p, w);
      if w.resource.None? then IsPage(r, "HTTP/1.1 404 Not Found", w.errorPage, p.verb, w)
      else
        var page :=
          "<!DOCTYPE html>\n         <html>\n         <body>\n            <h1>File deleted</h1>\n    \t </body>\n    \t </html>";
        IsWithin(r, l, "HTTP/1.1 200 OK", [Field("Content-Type", "text/html"), TextLength(|page|)], page, p, w)
  {
    hide Answer, Chosen, Scan, StatusReply, IsPage, IsWithin, Serving, Allows, Redirects, RunsCgi, WantsClose,
        Limited, Response;
    HandledBy(listed, active, p, w, s, k, uri);
    Line404();
    Line200();
    PageIs(404, w.errorPage, p.verb, w);
    SameClose(p, uri);
    WithinIs(200, [Field("Content-Type", "text/html"), TextLength(|DELETED_PAGE|)], Some(DELETED_PAGE), p,
        s.locations[k], w);
  }

  // -------------------------------------------------------- character by character

  lemma InOrder(m: FieldMap)
    requires forall i :: 0 < i < |m| ==> Less(m[i - 1].key, m[i].key)
    ensures Sorted(m)
  {
    forall i, j | 0 <= i < j < |m| ensures Less(m[i].key, m[j].key) { Upwards(m, i, j); }
  }

  lemma {:induction false} Upwards(m: FieldMap, i: nat, j: nat)
    requires i < j < |m| && forall l :: 0 < l < |m| ==> Less(m[l - 1].key, m[l].key)
    ensures Less(m[i].key, m[j].key)
    decreases j
  {
    if i < j - 1 {
      Upwards(m, i, j - 1);
      LessTransitive(m[i].key, m[j - 1].key, m[j].key);
    }
  }

  lemma KeysInOrder()
    ensures Less("Content-Length", "Content-Type") && Less("Content-Type", "Date") && Less("Date", "Server")
  {
    LessBy("Content-Length", "Content-Type", 8);
    LessBy("Content-Type", "Date", 0);
    LessBy("Date", "Server", 0);
  }

  /** The headers of a page, in their order. */
  function PageHeaders(length: string, date: string): FieldMap {
    [Field("Content-Length", length), Field("Content-Type", "text/plain"), Field("Date", date),
     Field("Server", "httpserver/1.0")]
  }

  lemma PageHeadersFind(length: string, date: string, key: string)
    ensures Lookup(PageHeaders(length, date), key) ==
      Lookup([Field("Content-Type", "text/plain"), Field("Content-Length", length)] + Common(false, date), key)
  {
    FindFour(Field("Content-Length", length), Field("Content-Type", "text/plain"), Field("Date", date),
             Field("Server", "httpserver/1.0"), key);
    FindFour(Field("Content-Type", "text/plain"), Field("Content-Length", length), Field("Server", "httpserver/1.0"),
             Field("Date", date), key);
    var a, b := [Field("Content-Type", "text/plain"), Field("Content-Length", length)], Common(false, date);
    assert a + b == [Field("Content-Type", "text/plain"), Field("Content-Length", length),
                     Field("Server", "httpserver/1.0"), Field("Date", date)];
  }

  lemma FindFour(a: Field, b: Field, c: Field, d: Field, key: string)
    ensures Lookup([a, b, c, d], key) ==
      if a.key == key then Some(a.value) else if b.key == key then Some(b.value)
      else if c.key == key then Some(c.value) else if d.key == key then Some(d.value) else None
  {
    FindFirst(a, [b, c, d], key);
    FindFirst(b, [c, d], key);
    FindFirst(c, [d], key);
    FindFirst(d, [], key);
    assert [a] + [b, c, d] == [a, b, c, d] && [b] + [c, d] == [b, c, d] && [c] + [d] == [c, d] && [d] + [] == [d];
  }

  lemma FindFirst(f: Field, later: FieldMap, key: string)
    ensures Lookup([f] + later, key) == if f.key == key then Some(f.value) else Lookup(later, key)
  {
    assert ([f] + later)[1..] == later;
  }

  lemma PrintFour(a: Field, b: Field, c: Field, d: Field)
    ensures PrintFields([a, b, c, d]) ==
      a.key + ": " + a.value + "\r\n" + (b.key + ": " + b.value + "\r\n" +
        (c.key + ": " + c.value + "\r\n" + (d.key + ": " + d.value + "\r\n" + "\r\n")))
  {
    PrintFieldsIs(a, [b, c, d]);
    PrintFieldsIs(b, [c, d]);
    PrintFieldsIs(c, [d]);
    PrintFieldsIs(d, []);
    assert [a] + [b, c, d] == [a, b, c, d] && [b] + [c, d] == [b, c, d] && [c] + [d] == [c, d] && [d] + [] == [d];
  }

  /** A page, to the last character. */
  function PageOf(line: string, length: string, date: string, text: string): string {
    line + "\r\n" + ("Content-Length: " + length + "\r\n" + ("Content-Type: text/plain\r\n" +
      ("Date: " + date + "\r\n" + "Server: httpserver/1.0\r\n\r\n"))) + text
  }

  lemma PageBytes(r: Reply, line: string, text: string, verb: int, w: World)
    requires IsPage(r, line, text, verb, w)
    ensures exists s ::
      IsPadded(s, text) && PrintReply(r) == PageOf(line, Decimal(ToInt32(|text|)), w.date,
          if verb == 0 then "" else s)
  {
    hide PrintReply, Lookup, Sorted, Less, PrintFields, Decimal, ToInt32, IsPadded;
    var length := Decimal(ToInt32(|text|));
    var fields := [Field("Content-Type", "text/plain"), TextLength(|text|)];
    var s :| IsPadded(s, text) && IsResponse(r, line, fields, if verb == 0 then "" else s, false, w);
    var headers :| Sorted(headers)
      && (forall key :: Lookup(headers, key) == Lookup(fields + Common(false, w.date), key))
      && PrintReply(r) == line + "\r\n" + PrintFields(headers) + if verb == 0 then "" else s;
    var page := PageHeaders(length, w.date);
    KeysInOrder();
    InOrder(page);
    forall key ensures Lookup(headers, key) == Lookup(page, key) { PageHeadersFind(length, w.date, key); }
    SameMap(headers, page);
    PrintFour(page[0], page[1], page[2], page[3]);
    PageText(length, w.date);
  }

  lemma PageText(length: string, date: string)
    ensures
      "Content-Length" + ": " + length + "\r\n" + ("Content-Type" + ": " + "text/plain" + "\r\n" +
        ("Date" + ": " + date + "\r\n" + ("Server" + ": " + "httpserver/1.0" + "\r\n" + "\r\n"))) ==
      "Content-Length: " + length + "\r\n" + ("Content-Type: text/plain\r\n" +
        ("Date: " + date + "\r\n" + "Server: httpserver/1.0\r\n\r\n"))
  {
  }
}
