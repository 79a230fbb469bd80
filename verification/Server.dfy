/** Server: the event loop, and the handlers that answer a request. */
module Servers {
  import opened Wrappers
  import opened Fields
  import opened CLib
  import opened RequestSpec
  import opened Requests
  import opened Responses
  import opened ConfigSpec
  import opened ServerSpec
  import opened ServerRuns
  import opened Clients

  class Server {
    const listed: seq<Settings>      // g_servers
    var active: Settings             // serv_config
    var clients: map<int, Client>    // clientMap
    var isCgi: bool
    var halted: bool
    ghost var closed: seq<ClientView>

    constructor (listed: seq<Settings>, active: Settings)
      ensures this.listed == listed && this.active == active && clients == map[]
      ensures !isCgi && !halted && closed == []
    {
      this.listed, this.active := listed, active;
      clients, isCgi, halted, closed := map[], false, false, [];
    }

    // -------------------------------------------------------------- answers

    /** The response is no part of the connection, and its reason is that of its status. */
    ghost predicate Apart(cl: Client, resp: HttpResponse)
      reads cl, cl.sendQueue, cl.RequestRepr(), resp, resp.msg, resp.msg.buffer
    {
      && cl.Valid() && cl.req != null && resp.Valid()
      && resp.msg != cl.req.msg && resp.msg.buffer != cl.req.msg.buffer
      && resp.reason == Reason(resp.status, "")
    }

    /** Completes the headers and queues the printed response, or a 413 in its place.  The header
        check of the length comes before create(), which has no effect on it. */
    method SendResponse(cl: Client, resp: HttpResponse, disconnect: bool, maxBody: nat, w: World)
      returns (sent: bool)
      requires Apart(cl, resp)
      modifies resp.msg, resp.msg.buffer, cl`sendQueue, cl`enqueued, this`isCgi
      ensures cl.Valid() && cl.req == old(cl.req) && fresh(cl.Repr() - old(cl.Repr())) && cl in cl.Repr()
      ensures SentBy(old(cl.View()), cl.View(), sent,
                     Limited(Reply(resp.status, Completed(old(resp.msg.headers), disconnect, w),
                                   old(resp.msg.data), disconnect), maxBody, cl.req.verb, w))
      ensures sent ==> !isCgi
      decreases if maxBody == 0 then 0 else 2
    {
      hide Client.View, Client.Valid, PrintResponse, Reason, StatusReply, Enqueue, PrintReply;
      ghost var own := Reply(resp.status, Completed(resp.msg.headers, disconnect, w), resp.msg.data, disconnect);
      ghost var reply := Limited(own, maxBody, cl.req.verb, w);
      CompleteHeaders(resp, disconnect, w);
      cl.Framed();
      if maxBody < resp.msg.dataLen && maxBody != 0 {
        assert reply == StatusReply(REQUEST_ENTITY_TOO_LARGE, cl.req.verb, w);
        sent := SendStatusResponse(cl, REQUEST_ENTITY_TOO_LARGE, w);
      } else {
        assert reply == Reply(resp.status, resp.msg.headers, resp.msg.data, disconnect);
        PrintsItself(resp, reply);
        sent := QueueResponse(cl, resp, disconnect);
      }
      if sent {
        isCgi := false;
      }
    }

    /** The headers that every response gets. */
    method CompleteHeaders(resp: HttpResponse, disconnect: bool, w: World)
      requires resp.Valid()
      modifies resp.msg`headers
      ensures resp.Valid() && resp.msg.headers == Completed(old(resp.msg.headers), disconnect, w)
    {
      hide Insert, Cgi.InsertAll, Completed;
      CompletedIs(resp.msg.headers, disconnect, w);
      resp.AddHeader("Server", "httpserver/1.0");
      resp.AddHeader("Date", w.date);
      if disconnect {
        resp.AddHeader("Connection", "close");
      }
    }

    /** Prints the response and puts it into the queue. */
    method QueueResponse(cl: Client, resp: HttpResponse, disconnect: bool) returns (sent: bool)
      requires Apart(cl, resp) && resp.Printed() != ""
      modifies resp.msg.buffer, cl`sendQueue, cl`enqueued
      ensures cl.Valid() && cl.req == old(cl.req) && fresh(cl.Repr() - old(cl.Repr()))
      ensures sent == (|old(resp.Printed())| <= INT_MAX)
      ensures cl.View() == if sent then Enqueue(old(cl.View()), old(resp.Printed()), disconnect) else old(cl.View())
    {
      hide PrintResponse, RequestSpec.Inv;
      if |resp.Printed()| > INT_MAX { return false; }
      var pData := resp.Create();
      var item := new SendQueueItem(pData, disconnect);
      cl.Framed();
      cl.AddToSendQueue(item);
      return true;
    }

    lemma PrintsItself(resp: HttpResponse, r: Reply)
      requires resp.Valid() && resp.reason == Reason(resp.status, "")
      requires r.status == resp.status && r.headers == resp.msg.headers && r.body == resp.msg.data
      ensures resp.Printed() == PrintReply(r) != ""
    {
    }

    /** A new response with a status, headers added in this order, and data. */
    method NewResponse(status: int, fields: seq<Field>, body: Option<string>) returns (resp: HttpResponse)
      ensures fresh(resp) && fresh(resp.msg) && fresh(resp.msg.buffer) && resp.Valid()
      ensures resp.status == status && resp.reason == Reason(status, "") && resp.msg.data == body
      ensures resp.msg.headers == Cgi.InsertAll([], fields)
    {
      hide PrintResponse, Reason, Insert;
      resp := new HttpResponse();
      resp.SetStatus(status);
      var i := 0;
      while i < |fields|
        invariant i <= |fields| && fresh(resp) && fresh(resp.msg) && fresh(resp.msg.buffer) && resp.Valid()
        invariant resp.status == status && resp.reason == Reason(status, "")
        invariant Cgi.InsertAll(resp.msg.headers, fields[i..]) == Cgi.InsertAll([], fields)
      {
        assert fields[i..][0] == fields[i] && fields[i..][1..] == fields[i + 1..];
        resp.AddHeader(fields[i].key, fields[i].value);
        i := i + 1;
      }
      resp.SetData(body);
    }

    /** A response with the error page or the reason phrase as its text. */
    method SendStatusResponse(cl: Client, status: int, w: World) returns (sent: bool)
      requires cl.Valid() && cl.req != null
      modifies cl`sendQueue, cl`enqueued, this`isCgi
      ensures cl.Valid() && cl.req == old(cl.req) && fresh(cl.Repr() - old(cl.Repr())) && cl in cl.Repr()
      ensures SentBy(old(cl.View()), cl.View(), sent, StatusReply(status, cl.req.verb, w))
      ensures sent ==> !isCgi
      decreases 1
    {
      hide Client.View, Client.Valid, PrintResponse, Reason, StrNCpy, Enqueue, PrintReply, Cgi.InsertAll,
          ContentLength;
      var text := if status == NOT_FOUND then w.errorPage else Reason(status, "");
      var body := if cl.req.verb != HEAD then Some(StrNCpy(text)) else None;
      var resp := NewResponse(status, [Field("Content-Type", "text/plain"), ContentLength(|text|)], body);
      assert Reply(status, Completed(resp.msg.headers, false, w), body, false) == StatusReply(status, cl.req.verb, w);
      cl.Framed();
      sent := SendResponse(cl, resp, false, 0, w);
    }

    // ------------------------------------------------------------- handlers

    /** A request that came to its end and is being answered. */
    ghost predicate Handling(cl: Client)
      reads cl, cl.sendQueue, cl.RequestRepr()
    {
      cl.Valid() && cl.req != null && cl.req.status == Complete
    }

    /** The CGI program ran: its headers for the response, and its body in place of the data of
        the request. */
    method RunCgi(cl: Client, w: World) returns (fields: seq<Field>)
      requires Handling(cl) && Sane(w)
      modifies cl.req.msg`data, cl.req.msg`dataLen
      ensures Handling(cl) && cl.req.msg.data == Some(Cgi.Scan(w.cgiOutput).value.1)
      ensures cl.req.msg.dataLen == |Cgi.Scan(w.cgiOutput).value.1|
      ensures fields == Cgi.Scan(w.cgiOutput).value.0
      ensures DropRequest(cl.View()) == DropRequest(old(cl.View()))
    {
      hide Cgi.Scan;
      var r := Cgi.ParseCgi(w.cgiOutput);
      cl.req.msg.data := Some(r.value.1);
      cl.req.msg.dataLen := |r.value.1|;
      fields := r.value.0;
    }

    /** The last lines of every handler: the response, and whether the client wants the connection
        closed behind it. */
    method Respond(cl: Client, status: int, fields: seq<Field>, body: Option<string>, maxBody: nat, w: World)
      returns (sent: bool)
      requires Handling(cl)
      modifies cl`sendQueue, cl`enqueued, this`isCgi
      ensures Handling(cl) && cl.req == old(cl.req) && fresh(cl.Repr() - old(cl.Repr()))
      ensures SentBy(DropRequest(old(cl.View())), DropRequest(cl.View()), sent,
                     Limited(Response(status, fields, body, WantsClose(old(cl.req.View())), w),
                             maxBody, cl.req.verb, w))
      ensures sent ==> !isCgi
    {
      hide Client.View, Client.Valid, Reason, PrintReply, SentBy, Limited, HeaderValue, Cgi.InsertAll;
      ghost var before := cl.View();
      var resp := NewResponse(status, fields, body);
      var dc := cl.req.msg.GetHeaderValue("Connection") == "close";
      cl.Framed();
      sent := SendResponse(cl, resp, dc, maxBody, w);
      SentDropped(before, cl.View(), sent, Limited(Response(status, fields, body, dc, w), maxBody, cl.req.verb, w));
    }

    method RespondStatus(cl: Client, status: int, w: World) returns (sent: bool)
      requires Handling(cl)
      modifies cl`sendQueue, cl`enqueued, this`isCgi
      ensures Handling(cl) && cl.req == old(cl.req) && fresh(cl.Repr() - old(cl.Repr()))
      ensures SentBy(DropRequest(old(cl.View())), DropRequest(cl.View()), sent, StatusReply(status, cl.req.verb, w))
      ensures sent ==> !isCgi
    {
      hide Client.View, Client.Valid, SentBy, StatusReply;
      ghost var before := cl.View();
      sent := SendStatusResponse(cl, status, w);
      SentDropped(before, cl.View(), sent, StatusReply(status, cl.req.verb, w));
    }

    /** GET and HEAD. */
    method HandleGet(cl: Client, maxBody: nat, w: World) returns (sent: bool)
      requires Handling(cl) && Sane(w) && (cl.req.verb == GET || cl.req.verb == HEAD)
      modifies cl`sendQueue, cl`enqueued, cl.req.msg`data, cl.req.msg`dataLen, this`isCgi
      ensures Handling(cl) && cl.req == old(cl.req) && fresh(cl.Repr() - old(cl.Repr()))
      ensures SentBy(DropRequest(old(cl.View())), DropRequest(cl.View()), sent,
                     MethodReply(maxBody, old(cl.req.View()), old(isCgi), w))
      ensures sent ==> !isCgi
    {
      hide Client.View, Client.Valid, SentBy, StatusReply, Limited, HeaderValue, Cgi.Scan;
      var r := w.resource;
      var fields := [];
      if isCgi {
        if r.None? {
          sent := RespondStatus(cl, NOT_FOUND, w);
          return;
        }
        fields := RunCgi(cl, w);
      }
      if r.Some? {
        fields := fields + [Field("Content-Type", r.value.mime), ContentLength(|r.value.data|)];
        var status := if r.value.isDirectory then NOT_FOUND else OK;
        var body := if cl.req.verb == HEAD then None else if isCgi then cl.req.msg.data else Some(r.value.data);
        sent := Respond(cl, status, fields, body, maxBody, w);
      } else {
        sent := RespondStatus(cl, NOT_FOUND, w);
      }
    }

    /** POST; what it does to the file is not modelled. */
    method HandlePost(cl: Client, maxBody: nat, w: World) returns (sent: bool)
      requires Handling(cl) && Sane(w) && cl.req.verb == POST
      modifies cl`sendQueue, cl`enqueued, cl.req.msg`data, cl.req.msg`dataLen, this`isCgi
      ensures Handling(cl) && cl.req == old(cl.req) && fresh(cl.Repr() - old(cl.Repr()))
      ensures SentBy(DropRequest(old(cl.View())), DropRequest(cl.View()), sent,
                     MethodReply(maxBody, old(cl.req.View()), old(isCgi), w))
      ensures sent ==> !isCgi
    {
      hide Client.View, Client.Valid, SentBy, StatusReply, Limited, HeaderValue, Cgi.Scan;
      var r := w.resource;
      var fields := [];
      if isCgi {
        fields := RunCgi(cl, w);
      }
      if r.None? {
        if !w.canOpen {
          sent := RespondStatus(cl, NOT_IMPLEMENTED, w);
          return;
        }
        fields := fields + [Field("Location", cl.req.requestUri), ContentLength(cl.req.msg.dataLen)];
        sent := Respond(cl, CREATED, fields, if isCgi then cl.req.msg.data else None, maxBody, w);
      } else {
        fields := fields + [Field("Content-Type", r.value.mime), ContentLength(cl.req.msg.dataLen)];
        sent := Respond(cl, OK, fields, cl.req.msg.data, maxBody, w);
      }
    }

    /** PUT; what it does to the file is not modelled. */
    method HandlePut(cl: Client, maxBody: nat, w: World) returns (sent: bool)
      requires Handling(cl) && Sane(w) && cl.req.verb == PUT
      modifies cl`sendQueue, cl`enqueued, cl.req.msg`data, cl.req.msg`dataLen, this`isCgi
      ensures Handling(cl) && cl.req == old(cl.req) && fresh(cl.Repr() - old(cl.Repr()))
      ensures SentBy(DropRequest(old(cl.View())), DropRequest(cl.View()), sent,
                     MethodReply(maxBody, old(cl.req.View()), old(isCgi), w))
      ensures sent ==> !isCgi
    {
      hide Client.View, Client.Valid, SentBy, StatusReply, HeaderValue, Cgi.Scan;
      var r := w.resource;
      var fields := [];
      if isCgi {
        fields := RunCgi(cl, w);
      }
      if !w.canOpen {
        sent := RespondStatus(cl, NOT_IMPLEMENTED, w);
        return;
      }
      var path := if r.None? then w.basePath + cl.req.requestUri else r.value.location;
      ghost var own := fields;
      fields := fields + [Field("Location", path)];
      if r.None? {
        fields := fields + [Field("Content-Length", "0")];
        assert fields == own + [Field("Location", path), Field("Content-Length", "0")];
      }
      sent := Respond(cl, if r.None? then CREATED else NO_CONTENT, fields, None, maxBody, w);
    }

    /** DELETE; that the file is removed is not modelled. */
    method HandleDelete(cl: Client, maxBody: nat, w: World) returns (sent: bool)
      requires Handling(cl) && Sane(w) && cl.req.verb == DELETE
      modifies cl`sendQueue, cl`enqueued, this`isCgi
      ensures Handling(cl) && cl.req == old(cl.req) && fresh(cl.Repr() - old(cl.Repr()))
      ensures SentBy(DropRequest(old(cl.View())), DropRequest(cl.View()), sent,
                     MethodReply(maxBody, old(cl.req.View()), old(isCgi), w))
      ensures sent ==> !isCgi
    {
      hide Client.View, Client.Valid, SentBy, StatusReply, Limited, HeaderValue, Cgi.Scan;
      if w.resource.None? {
        sent := RespondStatus(cl, NOT_FOUND, w);
      } else {
        var fields := [Field("Content-Type", "text/html"), ContentLength(|DELETED_PAGE|)];
        sent := Respond(cl, OK, fields, Some(DELETED_PAGE), maxBody, w);
      }
    }

    /** Finds the location of a request and asks whether it allows the method.  Without a location
        of its own the request goes to the first one, with its URI put together again. */
    method CheckAllowedMethods(req: HttpRequest) returns (allowed: bool, idx: nat)
      requires |active.locations| > 0
      modifies req`requestUri
      ensures (idx, req.requestUri) == Located(active, old(req.View()))
      ensures idx < |active.locations| && allowed == (MethodName(req.verb) in active.locations[idx].methods)
    {
      var locations := active.locations;
      idx := 0;
      while idx < |locations|
        invariant idx <= |locations| && req.requestUri == old(req.requestUri)
        invariant LocationIndex(locations, req.configDir, idx) == LocationIndex(locations, req.configDir)
      {
        if req.configDir == locations[idx].uri { break; }
        idx := idx + 1;
      }
      if idx == |locations| {
        idx := 0;
        req.requestUri := req.configDir + req.requestUri;
      }
      var methods := locations[idx].methods;
      for i := 0 to |methods|
        invariant forall j :: 0 <= j < i ==> methods[j] != MethodName(req.verb)
      {
        if MethodName(req.verb) == methods[i] { return true, idx; }
      }
      return false, idx;
    }

    /** Virtual hosts: the first listed server with this listen value that names the host. */
    method SelectHost(host: string)
      modifies this`active
      ensures active == SelectConfig(listed, old(active), host)
    {
      var i := 0;
      assert listed[0..] == listed;
      while i < |listed|
        invariant i <= |listed| && active == old(active)
        invariant SelectConfig(listed[i..], active, host) == SelectConfig(listed, old(active), host)
      {
        assert listed[i..][0] == listed[i] && listed[i..][1..] == listed[i + 1..];
        var names := listed[i].serverName;
        if active.listen == listed[i].listen {
          for j := 0 to |names|
            invariant forall l :: 0 <= l < j ==> names[l] != host
          {
            if host == names[j] {
              active := listed[i];
              return;
            }
          }
        }
        i := i + 1;
      }
    }

    /** Answers a complete request. */
    method HandleRequest(cl: Client, w: World) returns (sent: bool)
      requires Handling(cl) && Sane(w) && AllServe(listed) && Serves(active) && !isCgi
      modifies this`active, this`isCgi, cl`sendQueue, cl`enqueued, cl.req`requestUri, cl.req.msg`data,
          cl.req.msg`dataLen
      ensures cl.Valid() && cl.req == old(cl.req) && fresh(cl.Repr() - old(cl.Repr()))
      ensures active == Chosen(listed, old(active), old(cl.req.View())) && Serves(active)
      ensures SentBy(DropRequest(old(cl.View())), DropRequest(cl.View()), sent,
                     Verdict(active, old(cl.req.View()), w))
      ensures sent ==> !isCgi
    {
      hide Client.View, Client.Valid, SentBy, StatusReply, MethodReply, HeaderValue, SelectConfig, Cgi.Scan, Cgi.Find;
      ghost var before, p := cl.View(), cl.req.View();
      ChosenServes(listed, active, p);
      SelectHost(cl.req.msg.GetHeaderValue("Host"));
      var allowed, idx := CheckAllowedMethods(cl.req);
      var location := active.locations[idx];
      if !allowed {
        cl.RequestChanged(cl.req.requestUri);
        sent := RespondStatus(cl, METHOD_NOT_ALLOW, w);
        return;
      }
      if location.cgiExt != "" && Cgi.Find(cl.req.requestUri, location.cgiExt) < |cl.req.requestUri| {
        isCgi := true;
      }
      cl.RequestChanged(cl.req.requestUri);
      if idx != 0 && location.statusCode != 0 && location.redir != "" {
        if cl.req.verb != GET {
          sent := RespondStatus(cl, METHOD_NOT_ALLOW, w);
        } else if location.statusCode == MOVED_PERMANENTLY || location.statusCode == FOUND {
          sent := Redirect(cl, location, w);
        } else {
          sent := RespondStatus(cl, Responses.BAD_REQUEST, w);
        }
      } else {
        sent := Dispatch(cl, location.maxBodySize, w);
      }
    }

    method Redirect(cl: Client, location: Settings, w: World) returns (sent: bool)
      requires Handling(cl)
      modifies cl`sendQueue, cl`enqueued, this`isCgi
      ensures Handling(cl) && cl.req == old(cl.req) && fresh(cl.Repr() - old(cl.Repr()))
      ensures SentBy(DropRequest(old(cl.View())), DropRequest(cl.View()), sent,
                     Response(location.statusCode, [Field("Location", location.redir)], None, false, w))
      ensures sent ==> !isCgi
    {
      hide Client.View, Client.Valid, SentBy, Cgi.InsertAll;
      ghost var before := cl.View();
      var resp := NewResponse(location.statusCode, [Field("Location", location.redir)], None);
      cl.Framed();
      sent := SendResponse(cl, resp, false, 0, w);
      SentDropped(before, cl.View(), sent,
                  Response(location.statusCode, [Field("Location", location.redir)], None, false, w));
    }

    /** switch on the method */
    method Dispatch(cl: Client, maxBody: nat, w: World) returns (sent: bool)
      requires Handling(cl) && Sane(w) && HEAD <= cl.req.verb <= DELETE
      modifies cl`sendQueue, cl`enqueued, cl.req.msg`data, cl.req.msg`dataLen, this`isCgi
      ensures Handling(cl) && cl.req == old(cl.req) && fresh(cl.Repr() - old(cl.Repr()))
      ensures SentBy(DropRequest(old(cl.View())), DropRequest(cl.View()), sent,
                     MethodReply(maxBody, old(cl.req.View()), old(isCgi), w))
      ensures sent ==> !isCgi
    {
      hide Client.View, Client.Valid, SentBy, MethodReply;
      if cl.req.verb == HEAD || cl.req.verb == GET {
        sent := HandleGet(cl, maxBody, w);
      } else if cl.req.verb == POST {
        sent := HandlePost(cl, maxBody, w);
      } else if cl.req.verb == PUT {
        sent := HandlePut(cl, maxBody, w);
      } else {
        sent := HandleDelete(cl, maxBody, w);
      }
    }

    // ----------------------------------------------------------- connections

    /** Feeds what was received and runs the parser. */
    method Receive(cl: Client, pData: string) returns (status: Phase)
      requires cl.Valid() && Buffered(cl.View()) + |CString(pData)| <= INT_MAX
      requires cl.View().request.Some? ==> Inv(cl.View().request.value)
      modifies cl`req, cl`segments, cl`finished, cl.RequestRepr()
      ensures cl.Valid() && cl.req != null
      ensures fresh(cl.RequestRepr() - old(cl.RequestRepr())) && fresh(cl.Repr() - old(cl.Repr()))
      ensures cl.View() == ServerSpec.Receive(old(cl.View()), CString(pData)) && status == cl.req.status
    {
      hide CString, RequestSpec.Inv, ServerSpec.Fed, RequestSpec.Parse, Client.View, Client.Valid, Buffered, Noted;
      cl.RecvRequestData(pData);
      cl.ViewFacts();
      status := cl.ParseRequest();
      cl.Record(CString(pData));
    }

    /** Answers a request that came to its end, and deletes it. */
    method AnswerClient(cl: Client, w: World) returns (sent: bool)
      requires cl.Valid() && cl.req != null && IsOver(cl.req.View())
      requires Sane(w) && AllServe(listed) && Serves(active) && !isCgi
      modifies this`active, this`isCgi, cl, cl.RequestRepr()
      ensures cl.Valid() && fresh(cl.Repr() - old(cl.Repr()))
      ensures active == Chosen(listed, old(active), old(cl.req.View())) && Serves(active)
      ensures exists x :: cl.View() == DropRequest(x)
      ensures SentBy(DropRequest(old(cl.View())), cl.View(), sent,
                     Answer(listed, old(active), old(cl.req.View()), w))
      ensures sent ==> !isCgi
    {
      hide Client.View, Client.Valid, RequestSpec.Inv, Verdict, StatusReply, SentBy, HeaderValue;
      ghost var before, p := cl.View(), cl.req.View();
      if cl.req.status == BadRequest {
        sent := SendStatusResponse(cl, Responses.BAD_REQUEST, w);
        SentDropped(before, cl.View(), sent, StatusReply(Responses.BAD_REQUEST, p.verb, w));
      } else {
        sent := HandleRequest(cl, w);
      }
      cl.DeleteRequest();
    }

    /** The answer as the end of a read event that found the connection in state `before`. */
    method AnswerRead(cl: Client, w: World, ghost before: ClientView, ghost segment: string) returns (sent: bool)
      requires cl.Valid() && cl.req != null && IsOver(cl.req.View())
      requires Sane(w) && AllServe(listed) && Serves(active) && !isCgi
      requires (before.request.Some? ==> Inv(before.request.value)) && Buffered(before) + |segment| <= INT_MAX
      requires cl.View() == ServerSpec.Receive(before, segment)
      modifies this`active, this`isCgi, cl, cl.RequestRepr()
      ensures cl.Valid() && fresh(cl.Repr() - old(cl.Repr())) && Serves(active) && (sent ==> !isCgi)
      ensures ReadsTo(listed, old(active), before, segment, true, w, ReadOutcome(active, cl.View(), true, !sent))
    {
      hide Client.View, Client.Valid, RequestSpec.Inv, Answer, Chosen, SentBy, Serves, ReadsTo,
          ServerSpec.Receive, Buffered;
      cl.ViewFacts();
      sent := AnswerClient(cl, w);
      ghost var x :| cl.View() == DropRequest(x);
      ReadEnds(listed, old(active), before, segment, w, x, sent);
    }

    /** A read event: `ok` says that recv returned a positive length; otherwise the receive buffer is
        all zero.  The results tell whether the connection stays open and whether the server stops
        there: in the endless loop, or because a size would leave the range of int. */
    method ReadClient(cl: Client, bytes: string, ok: bool, w: World) returns (alive: bool, stop: bool)
      requires cl.Valid() && !isCgi && Sane(w) && AllServe(listed) && Serves(active)
      modifies cl, cl.RequestRepr(), this`active, this`isCgi
      ensures cl.Valid() && fresh(cl.Repr() - old(cl.Repr())) && Serves(active) && (!stop ==> !isCgi)
      ensures ReadsTo(listed, old(active), old(cl.View()), SegmentOf(bytes, ok), ok, w,
                      ReadOutcome(active, cl.View(), alive, stop))
    {
      hide Client.View, Client.Valid, CString, RequestSpec.Inv, Serves, AllServe, Sane, ReadsTo,
        ServerSpec.Receive, Buffered, QueueOk, Client.Repr, RequestSpec.Parse, Fresh, Feed;
      ghost var before, parts := cl.View(), cl.Repr();
      cl.ViewFacts();
      ReadGoesOn(listed, active, before, SegmentOf(bytes, ok), ok, w);
      var pData := if ok then bytes else "";
      if cl.Waiting() + |CString(pData)| > INT_MAX {
        return true, true;
      }
      var status := Receive(cl, pData);
      cl.ViewFacts();
      if status == Spinning { return true, true; }
      if !ok { return false, false; }
      if status == BadRequest || status == Complete {
        ghost var received := cl.Repr();
        label Received:
        var sent := AnswerRead(cl, w, before, SegmentOf(bytes, true));
        forall o | o in cl.Repr() && o !in parts ensures fresh(o) {
          if o !in received { assert o in cl.Repr() - received && fresh@Received(o); }
        }
        return true, !sent;
      }
      return true, false;
    }

    /** A write event: sends from the front item what `sent` says the kernel takes. */
    method SendNext(cl: Client, avail: nat, sent: int) returns (gone: bool)
      requires cl.Valid() && QueueOk(cl.View().queue)
      modifies cl`sendQueue, cl`wire, cl.Items()
      ensures cl.Valid() && cl.Repr() <= old(cl.Repr())
      ensures (cl.View(), gone) == Send(old(cl.View()), avail, sent)
    {
      hide Client.Queue, Client.Valid, Client.Items, RequestSpec.Inv, QueueOk;
      cl.FrontFacts();
      cl.ItemsOf();
      var item := cl.NextInSendQueue();
      if item == null {
        cl.Framed();
        return false;
      }
      var pData, offset := item.sendData, item.sendOffset;
      var actualSent := Actual(item.View(), avail, sent);
      if actualSent >= 0 {
        cl.wire := cl.wire + pData[offset..offset + actualSent];
        item.sendOffset := offset + actualSent;
      }
      assert old(cl.wire) + pData[offset..offset] == old(cl.wire);
      if item.sendOffset >= |item.sendData| {
        cl.DequeueFromSendQueue();
      }
      cl.FrontMoved(item.sendOffset);
      gone := item.disconnect || actualSent <= 0;
    }

    // ------------------------------------------------------------ event loop

    /** The objects of all connections. */
    ghost function AllRepr(): set<object>
      reads this, clients.Values
    {
      set fd, o | fd in clients && o in clients[fd].Repr() :: o
    }

    /** The connections are sound and share no object. */
    ghost predicate Valid()
      reads this, clients.Values, AllRepr()
    {
      && (forall fd :: fd in clients ==> clients[fd].fd == fd && ValidAt(fd))
      && (forall f, g :: f in clients && g in clients && f != g ==> clients[f].Repr() !! clients[g].Repr())
      && AllServe(listed) && Serves(active) && (halted || !isCgi)
    }

    lemma ReprOf(fd: int)
      requires fd in clients
      ensures clients[fd].Repr() <= AllRepr()
      ensures clients[fd] in AllRepr() && clients[fd].RequestRepr() <= AllRepr() && clients[fd].Items() <= AllRepr()
      ensures forall i :: i in clients[fd].sendQueue ==> i in AllRepr()
    {
    }

    ghost predicate ValidAt(fd: int)
      requires fd in clients
      reads this, clients.Values, AllRepr()
    {
      ReprOf(fd);
      clients[fd].Valid()
    }

    ghost function ViewAt(fd: int): ClientView
      requires fd in clients
      reads this, clients.Values, AllRepr()
    {
      ReprOf(fd);
      clients[fd].View()
    }

    ghost function View(): ServerView
      reads this, clients.Values, AllRepr()
    {
      ServerView(active, map fd | fd in clients :: ViewAt(fd), closed, halted)
    }

    /** What a connection is that no part of an event touched. */
    twostate lemma Untouched(fd: int)
      requires old(Valid()) && fd in old(clients) && fd in clients && clients[fd] == old(clients[fd])
      requires unchanged(clients[fd]) && unchanged(clients[fd].sendQueue) && unchanged(clients[fd].RequestRepr())
      ensures ViewAt(fd) == old(ViewAt(fd)) && clients[fd].fd == fd && ValidAt(fd)
      ensures clients[fd].Repr() == old(clients[fd].Repr())
    {
      hide Client.Valid, Client.View, Client.Repr;
      assert old(ValidAt(fd));
      clients[fd].Framed();
    }

    /** What the connections are that no part of an event touched. */
    twostate lemma OthersKept(touched: set<int>)
      requires old(Valid())
      requires forall g :: g in clients && g !in touched ==> g in old(clients) && clients[g] == old(clients[g])
      requires forall g :: g in clients && g !in touched ==>
        unchanged(clients[g]) && unchanged(clients[g].sendQueue) && unchanged(clients[g].RequestRepr())
      ensures forall g :: g in clients && g !in touched ==>
        clients[g].fd == g && ValidAt(g) && ViewAt(g) == old(ViewAt(g)) && clients[g].Repr() == old(clients[g].Repr())
      ensures forall f, g :: f in clients && g in clients && f !in touched && g !in touched && f != g ==>
        clients[f].Repr() !! clients[g].Repr()
    {
      hide Client.Valid, Client.View, Client.Repr, ValidAt, ViewAt, Serves;
      forall g | g in clients && g !in touched
        ensures clients[g].fd == g && ValidAt(g) && ViewAt(g) == old(ViewAt(g))
        ensures clients[g].Repr() == old(clients[g].Repr())
      {
        Untouched(g);
      }
      forall f, g | f in clients && g in clients && f !in touched && g !in touched && f != g
        ensures clients[f].Repr() !! clients[g].Repr()
      {
        assert old(clients[f].Repr() !! clients[g].Repr());
      }
    }

    /** A server with the old connections, and a changed or new one on fd. */
    twostate lemma OneOther(fd: int)
      requires old(Valid()) && fd in clients && clients.Keys == old(clients).Keys + {fd}
      requires forall g :: g in clients && g != fd ==> g in old(clients) && clients[g] == old(clients[g])
      requires clients[fd].fd == fd && clients[fd].Valid()
      requires forall g :: g in clients && g != fd ==> clients[fd].Repr() !! clients[g].Repr()
      requires Serves(active) && (halted || !isCgi)
      requires forall g :: g in clients && g != fd ==>
        unchanged(clients[g]) && unchanged(clients[g].sendQueue) && unchanged(clients[g].RequestRepr())
      ensures Valid() && View().clients == old(View()).clients[fd := clients[fd].View()]
      ensures forall g :: g in clients && g != fd ==> clients[g].Repr() == old(clients[g].Repr())
    {
      hide Client.Valid, Client.View, Client.Repr, Client.RequestRepr, Serves, AllRepr, ValidAt, ViewAt;
      OthersKept({fd});
      Unfolded(fd);
      forall f, g | f in clients && g in clients && f != g ensures clients[f].Repr() !! clients[g].Repr() {
        if f == fd { assert clients[fd].Repr() !! clients[g].Repr(); }
        if g == fd { assert clients[fd].Repr() !! clients[f].Repr(); }
      }
    }

    lemma Unfolded(fd: int)
      requires fd in clients
      ensures ValidAt(fd) == clients[fd].Valid() && ViewAt(fd) == clients[fd].View()
    {
    }

    /** A server of which only the connection on fd changed. */
    twostate lemma OneChanged(fd: int)
      requires old(Valid()) && fd in old(clients) && clients == old(clients)
      requires clients[fd].Valid() && fresh(clients[fd].Repr() - old(clients[fd].Repr()))
      requires Serves(active) && (halted || !isCgi)
      requires forall g :: g in clients && g != fd ==>
        unchanged(clients[g]) && unchanged(clients[g].sendQueue) && unchanged(clients[g].RequestRepr())
      ensures Valid() && fresh(AllRepr() - old(AllRepr()))
      ensures View().clients == old(View()).clients[fd := clients[fd].View()]
    {
      hide Client.Valid, Client.View, Client.Repr, Client.RequestRepr, Serves, View, ValidAt, ViewAt;
      forall g | g in clients && g != fd ensures clients[fd].Repr() !! clients[g].Repr() {
        Untouched(g);
        assert old(clients[fd].Repr() !! clients[g].Repr());
        clients[fd].StillApart(clients[g]);
      }
      OneOther(fd);
      forall o | o in AllRepr() && o !in old(AllRepr()) ensures fresh(o) {
        var g :| g in clients && o in clients[g].Repr();
        assert o !in old(clients[g].Repr());
      }
    }

    /** A server whose connections no part of an event touched. */
    twostate lemma AllUntouched()
      requires old(Valid()) && unchanged(this)
      requires forall g :: g in clients ==>
        unchanged(clients[g]) && unchanged(clients[g].sendQueue) && unchanged(clients[g].RequestRepr())
      ensures Valid() && AllRepr() == old(AllRepr()) && View() == old(View())
    {
      hide Client.Valid, Client.View, Client.Repr;
      OthersKept({});
    }

    /** A server that only lost the connection on fd. */
    twostate lemma OneGone(fd: int)
      requires old(Valid()) && fd in old(clients) && clients == old(clients) - {fd}
      requires unchanged(this`active) && unchanged(this`isCgi) && unchanged(this`halted)
      requires forall g :: g in clients ==>
        unchanged(clients[g]) && unchanged(clients[g].sendQueue) && unchanged(clients[g].RequestRepr())
      ensures Valid() && AllRepr() <= old(AllRepr()) && View().clients == old(View()).clients - {fd}
    {
      hide Client.Valid, Client.View, Client.Repr;
      OthersKept({});
    }

    /** A server that only got a new connection on fd. */
    twostate lemma OneNew(fd: int)
      requires old(Valid()) && fd !in old(clients) && fd in clients && clients == old(clients)[fd := clients[fd]]
      requires clients[fd].fd == fd && clients[fd].Valid() && fresh(clients[fd].Repr())
      requires unchanged(this`active) && unchanged(this`isCgi) && unchanged(this`halted)
      requires forall g :: g in clients && g != fd ==>
        unchanged(clients[g]) && unchanged(clients[g].sendQueue) && unchanged(clients[g].RequestRepr())
      ensures Valid() && fresh(AllRepr() - old(AllRepr()))
      ensures View().clients == old(View()).clients[fd := clients[fd].View()]
    {
      hide Client.Valid, Client.View, Client.Repr, Client.RequestRepr, Serves, View, ValidAt, ViewAt;
      forall g | g in clients && g != fd ensures clients[fd].Repr() !! clients[g].Repr() {
        Untouched(g);
        clients[g].ReprWasThere();
      }
      OneOther(fd);
      forall o | o in AllRepr() && o !in old(AllRepr()) ensures fresh(o) {
        var g :| g in clients && o in clients[g].Repr();
        assert g == fd;
      }
    }

    method DisconnectedClient(cl: Client)
      requires Valid() && cl.fd in clients && clients[cl.fd] == cl && cl.Valid()
      modifies this`clients, this`closed, cl`req, cl`segments
      ensures Valid() && AllRepr() <= old(AllRepr())
      ensures View() == Closed(old(View()), cl.fd, old(cl.View()))
    {
      hide Client.Valid, Client.View, Client.Repr, RequestSpec.Inv;
      closed := closed + [cl.View()];
      cl.Framed();
      cl.DeleteRequest();
      clients := clients - {cl.fd};
      OneGone(cl.fd);
    }

    /** accept gave `fd`; inserting it is without effect when the map has it. */
    method AcceptNewClient(fd: int)
      requires Valid()
      modifies this`clients
      ensures Valid() && fresh(AllRepr() - old(AllRepr()))
      ensures View() == if fd in old(clients) then old(View()) else Updated(old(View()), fd, NEW_CLIENT)
    {
      hide Client.Valid, Client.View, Client.Repr;
      var cl := new Client(fd);
      if fd in clients {
        AllUntouched();
        return;
      }
      label Made:
      clients := clients[fd := cl];
      cl.Framed@Made();
      OneNew(fd);
    }

    /** No other connection has a part of the one on fd. */
    lemma PartsApart(fd: int)
      requires Valid() && fd in clients
      ensures forall g :: g in clients && g != fd ==>
        && clients[g] != clients[fd] && clients[g].RequestRepr() !! clients[fd].RequestRepr()
        && ({clients[g]} + clients[g].RequestRepr()) !! clients[fd].Items()
        && forall k :: 0 <= k < |clients[g].sendQueue| ==> clients[g].sendQueue[k] !in clients[fd].Items()
    {
      hide Client.Valid, Client.View, Client.Items, Client.RequestRepr;
      forall g | g in clients && g != fd
        ensures clients[g] != clients[fd] && clients[g].RequestRepr() !! clients[fd].RequestRepr()
        ensures ({clients[g]} + clients[g].RequestRepr()) !! clients[fd].Items()
        ensures forall k :: 0 <= k < |clients[g].sendQueue| ==> clients[g].sendQueue[k] !in clients[fd].Items()
      {
        assert clients[g].Repr() !! clients[fd].Repr();
        clients[g].ItemsOf();
      }
    }

    lemma At(fd: int)
      requires Valid() && fd in clients
      ensures clients[fd].fd == fd && clients[fd].Valid() && View().clients[fd] == clients[fd].View()
    {
      assert ValidAt(fd);
    }

    lemma ServesAll()
      requires Valid()
      ensures AllServe(listed) && Serves(active) && (halted || !isCgi)
      ensures View().active == active && View().closed == closed && View().halted == halted
    {
    }

    /** What sending does to the server. */
    method SendPart(cl: Client, avail: nat, sent: int) returns (gone: bool)
      requires Valid() && ServerInv(View()) && cl.fd in clients && clients[cl.fd] == cl
      modifies cl`sendQueue, cl`wire, cl.Items()
      ensures Valid() && fresh(AllRepr() - old(AllRepr())) && cl.Valid() && clients == old(clients)
      ensures var (c, closes) := Send(old(View()).clients[cl.fd], avail, sent);
        c == cl.View() && gone == closes && View() == Updated(old(View()), cl.fd, c)
    {
      hide Client.Valid, Client.View, Client.Repr, Send, RequestSpec.Inv, QueueOk, Valid, AllRepr, ViewAt,
          Serves, AllServe;
      ServesAll();
      PartsApart(cl.fd);
      At(cl.fd);
      cl.ViewFacts();
      gone := SendNext(cl, avail, sent);
      OneChanged(cl.fd);
    }

    /** What reading does to the server. */
    method ReadPart(cl: Client, bytes: string, ok: bool, w: World) returns (alive: bool, ghost o: ReadOutcome)
      requires Valid() && ServerInv(View()) && !halted && cl.fd in clients && clients[cl.fd] == cl && Sane(w)
      modifies cl, cl.RequestRepr(), this`active, this`isCgi, this`halted
      ensures Valid() && fresh(AllRepr() - old(AllRepr())) && cl.Valid() && clients == old(clients)
      ensures cl.View() == o.client && alive == o.alive
      ensures ReadsTo(listed, old(active), old(View()).clients[cl.fd], SegmentOf(bytes, ok), ok, w, o)
      ensures View() == Updated(old(View()).(active := o.active, halted := o.halted), cl.fd, o.client)
    {
      hide Client.Valid, Client.View, Client.Repr, ReadsTo, Sane, RequestSpec.Inv, Valid, View, AllRepr, ViewAt,
          Serves, AllServe, ServerInv;
      ServesAll();
      PartsApart(cl.fd);
      At(cl.fd);
      var stop;
      alive, stop := ReadClient(cl, bytes, ok, w);
      label Read:
      halted := stop;
      cl.Framed@Read();
      OneChanged(cl.fd);
      ServesAll();
      o := ReadOutcome(active, cl.View(), alive, stop);
    }

    /** A write event; a flagged item closes the connection, and so does a send without success. */
    method WriteClient(cl: Client, avail: nat, sent: int)
      requires Valid() && ServerInv(View()) && !halted && cl.fd in clients && clients[cl.fd] == cl
      modifies this`clients, this`closed, cl`req, cl`segments, cl`sendQueue, cl`wire, cl.Items()
      ensures Valid() && fresh(AllRepr() - old(AllRepr()))
      ensures Step(listed, old(View()), Writable(cl.fd, avail, sent), View())
    {
      hide Client.Valid, Client.View, Client.Repr, Client.Items, ClientInv, Send, Valid, AllRepr, ViewAt;
      var gone := SendPart(cl, avail, sent);
      if gone {
        DisconnectedClient(cl);
      }
    }

    /** A read event; the connection is closed when nothing was received. */
    method ReadEvent(cl: Client, bytes: string, ok: bool, w: World)
      requires Valid() && ServerInv(View()) && !halted && cl.fd in clients && clients[cl.fd] == cl && Sane(w)
      modifies this, cl, cl.RequestRepr()
      ensures Valid() && fresh(AllRepr() - old(AllRepr()))
      ensures Step(listed, old(View()), Readable(cl.fd, bytes, ok, w), View())
    {
      hide Client.Valid, Client.View, Client.Repr, Client.RequestRepr, ClientInv, ReadsTo, Sane, Valid, AllRepr,
          ViewAt;
      ghost var before := View();
      var alive, o := ReadPart(cl, bytes, ok, w);
      if !alive {
        DisconnectedClient(cl);
      }
      assert View() == AfterRead(before, cl.fd, o);
    }

    /** One event of the kernel. */
    method HandleEvent(e: Event)
      requires Valid() && ServerInv(View()) && !halted && (e.Readable? ==> Sane(e.world))
      modifies this, AllRepr()
      ensures Valid() && ServerInv(View()) && fresh(AllRepr() - old(AllRepr()))
      ensures Step(listed, old(View()), e, View())
    {
      hide Client.Valid, Client.View, Client.Repr, Client.RequestRepr, ServerInv, Sane, ReadsTo, Send, Valid,
          AllRepr, ViewAt;
      ghost var before := View();
      if e.fd in clients {
        ReprOf(e.fd);
        At(e.fd);
        match e {
          case Accept(fd) => AcceptNewClient(fd);
          case Eof(fd) => DisconnectedClient(clients[fd]);
          case Readable(fd, bytes, ok, w) => ReadEvent(clients[fd], bytes, ok, w);
          case Writable(fd, avail, sent) => WriteClient(clients[fd], avail, sent);
        }
      } else if e.Accept? {
        AcceptNewClient(e.fd);
      }
      ServesAll();
      StepInv(listed, before, e, View());
    }

    /** The loop of run over what kevent reports.  It takes the first n events; fewer than all only
        when the server halts. */
    method Run(events: seq<Event>) returns (n: nat, ghost trace: seq<ServerView>)
      requires Valid() && clients == map[] && closed == [] && !halted
      requires AllSane(events)
      modifies this
      ensures Valid() && n <= |events| && (n < |events| ==> halted)
      ensures IsRun(listed, trace, events[..n]) && trace[n] == View() && trace[0] == old(View())
    {
      hide Client.Valid, Client.View, Client.Repr, ClientInv, Sane, Step, Valid, ViewAt;
      ServesAll();
      n, trace := 0, [View()];
      while n < |events| && !halted
        invariant Valid() && ServerInv(View()) && fresh(AllRepr()) && n <= |events|
        invariant IsRun(listed, trace, events[..n]) && trace[n] == View() && trace[0] == old(View())
        decreases |events| - n
      {
        ghost var prior := AllRepr();
        label Before:
        HandleEvent(events[n]);
        forall o | o in AllRepr() ensures fresh(o) {
          if o !in prior { assert o in AllRepr() - prior && fresh@Before(o); }
        }
        OneMore(listed, trace, events, n, View());
        n := n + 1;
        trace := trace + [View()];
      }
    }
  }

  lemma OneMore(listed: seq<Settings>, trace: seq<ServerView>, events: seq<Event>, n: nat, s: ServerView)
    requires AllServe(listed) && n < |events|
    requires AllSane(events)
    requires IsRun(listed, trace, events[..n])
    requires ServerInv(trace[n]) && Step(listed, trace[n], events[n], s)
    ensures IsRun(listed, trace + [s], events[..n + 1])
  {
    hide Step, ServerInv, Serves, AllServe, Sane;
    assert events[..n + 1][..n] == events[..n];
  }
}
