/** The server as a step machine over values: what one kernel event does to the clients, and
    what every run keeps.  The classes in Server.dfy take these steps. */
module ServerSpec {
  import opened Wrappers
  import opened Text
  import opened Fields
  import opened CLib
  import opened RequestSpec
  import opened Segmentation
  import opened Responses
  import opened Libft
  import opened ConfigSpec
  import opened Cgi

  // --------------------------------------------------------------- clients

  datatype Item = Item(data: string, offset: nat, disconnect: bool)

  /** A connection: the request being read and the segments it came in, the items to send, and
      for the specification the requests that came to their end, what was ever put into the
      queue, and what went over the wire. */
  datatype ClientView = ClientView(
    request: Option<State>,
    segments: seq<string>,
    queue: seq<Item>,
    finished: seq<State>,
    enqueued: seq<string>,
    wire: string)

  const NEW_CLIENT := ClientView(None, [], [], [], [], "")

  /** A request that must be answered. */
  predicate IsOver(p: State) { p.phase == Complete || p.phase == BadRequest }

  function Rest(i: Item): string {
    if i.offset <= |i.data| then i.data[i.offset..] else ""
  }

  /** The bytes of the queue that are still to be sent. */
  function Unsent(queue: seq<Item>): string {
    if queue == [] then "" else Rest(queue[0]) + Unsent(queue[1..])
  }

  predicate QueueOk(queue: seq<Item>) {
    forall i :: 0 <= i < |queue| ==> queue[i].offset < |queue[i].data|
  }

  /** The invariant of a connection: the request in progress is what the segments since the last
      answer deliver, and no byte of an answer is lost, repeated or out of place. */
  ghost predicate ClientInv(c: ClientView) {
    && c.request == (if c.segments == [] then None else Some(Deliver(Fresh(""), c.segments)))
    && QueueOk(c.queue)
    && c.wire + Unsent(c.queue) == Flatten(c.enqueued)
    && |c.enqueued| <= |c.finished| <= |c.enqueued| + 1
  }

  /** Every request that came to its end has exactly one answer in the queue or on the wire. */
  predicate AllAnswered(c: ClientView) { |c.enqueued| == |c.finished| }

  /** The request with more bytes in its buffer. */
  function Fed(request: Option<State>, segment: string): (p: State)
    requires request.Some? ==> Inv(request.value)
    ensures Inv(p)
  {
    if request.None? then Fresh(segment) else Feed(request.value, segment)
  }

  /** A segment that arrived, and the request if that ended it. */
  function Noted(c: ClientView, segment: string): ClientView
    requires c.request.Some?
  {
    c.(segments := c.segments + [segment],
       finished := if IsOver(c.request.value) then c.finished + [c.request.value] else c.finished)
  }

  /** Bytes arrive and the parser runs. */
  function Receive(c: ClientView, segment: string): ClientView
    requires c.request.Some? ==> Inv(c.request.value)
  {
    Noted(c.(request := Some(Parse(Fed(c.request, segment)))), segment)
  }

  /** An item goes to the end of the queue. */
  function Enqueue(c: ClientView, data: string, disconnect: bool): ClientView {
    c.(queue := c.queue + [Item(data, 0, disconnect)], enqueued := c.enqueued + [data])
  }

  function DropRequest(c: ClientView): ClientView {
    c.(request := None, segments := [])
  }

  /** How many bytes one write event tries to send. */
  function Attempt(i: Item, avail: nat): nat
    requires i.offset <= |i.data|
  {
    var room := if avail > 1300 then 1300 else if avail == 0 then 64 else avail;
    if room >= |i.data| - i.offset then |i.data| - i.offset else room
  }

  /** What send returns when the kernel is willing to take `sent` bytes (an error if negative). */
  function Actual(i: Item, avail: nat, sent: int): int
    requires i.offset <= |i.data|
  {
    if sent < 0 then -1 else if sent <= Attempt(i, avail) then sent else Attempt(i, avail)
  }

  /** The queue after the front item moved on to `offset`. */
  function Advanced(queue: seq<Item>, offset: nat): seq<Item>
    requires queue != []
  {
    if offset >= |queue[0].data| then queue[1..] else [queue[0].(offset := offset)] + queue[1..]
  }

  /** A write event: the new connection, and whether it is closed. */
  function Send(c: ClientView, avail: nat, sent: int): (ClientView, bool)
    requires QueueOk(c.queue)
  {
    if c.queue == [] then (c, false)
    else
      var i := c.queue[0];
      var n := Actual(i, avail, sent);
      var offset := if n >= 0 then i.offset + n else i.offset;
      (c.(queue := Advanced(c.queue, offset), wire := c.wire + i.data[i.offset..offset]), i.disconnect || n <= 0)
  }

  // ---------------------------------------------------------------- answers

  datatype Resource = Resource(data: string, mime: string, isDirectory: bool, location: string)

  /** What the clock, the file system and a CGI program say while one request is handled. */
  datatype World = World(
    date: string, errorPage: string, basePath: string, resource: Option<Resource>,
    canOpen: bool, cgiOutput: string)

  /** A CGI program whose output the scan can read. */
  predicate Sane(w: World) { Scan(w.cgiOutput).Some? }

  datatype Reply = Reply(status: int, headers: FieldMap, body: Option<string>, disconnect: bool)

  /** The headers that every response gets behind its own ones. */
  function Completed(headers: FieldMap, disconnect: bool, w: World): FieldMap {
    InsertAll(headers, [Field("Server", "httpserver/1.0"), Field("Date", w.date)]
      + if disconnect then [Field("Connection", "close")] else [])
  }

  lemma CompletedIs(headers: FieldMap, disconnect: bool, w: World)
    ensures
      var h := Insert(Insert(headers, "Server", "httpserver/1.0"), "Date", w.date);
      Completed(headers, disconnect, w) == if disconnect then Insert(h, "Connection", "close") else h
  {
    hide Insert;
    var server, date, close := Field("Server", "httpserver/1.0"), Field("Date", w.date), Field("Connection", "close");
    var later := if disconnect then [close] else [];
    InsertFirst(headers, server, [date] + later);
    assert [server] + ([date] + later) == [server, date] + later;
    InsertFirst(Insert(headers, server.key, server.value), date, later);
    assert [close] + [] == [close];
    InsertFirst(Insert(Insert(headers, server.key, server.value), date.key, date.value), close, []);
  }

  lemma InsertFirst(headers: FieldMap, f: Field, later: seq<Field>)
    ensures InsertAll(headers, [f] + later) == InsertAll(Insert(headers, f.key, f.value), later)
  {
    assert ([f] + later)[1..] == later;
  }

  /** A response with a status, its own headers in the order in which they are added, and data. */
  function Response(status: int, fields: seq<Field>, body: Option<string>, disconnect: bool, w: World): Reply {
    Reply(status, Completed(InsertAll([], fields), disconnect, w), body, disconnect)
  }

  /** addHeader takes the length as an int. */
  function ContentLength(n: nat): Field { Field("Content-Length", Decimal(ToInt32(n))) }

  const DELETED_PAGE: string :=
    "<!DOCTYPE html>\n         <html>\n         <body>\n            <h1>File deleted</h1>\n    \t </body>\n    \t </html>"

  /** strncpy with the full length: nothing behind a NUL is copied. */
  function StrNCpy(s: string): (r: string)
    ensures |r| == |s|
  {
    CString(s) + seq(|s| - |CString(s)|, _ => '\0')
  }

  /** sendStatusResponse. */
  function StatusReply(status: int, verb: int, w: World): Reply {
    var text := if status == NOT_FOUND then w.errorPage else Reason(status, "");
    Response(status, [Field("Content-Type", "text/plain"), ContentLength(|text|)],
             if verb == HEAD then None else Some(StrNCpy(text)), false, w)
  }

  function Length(body: Option<string>): nat { if body.Some? then |body.value| else 0 }

  /** sendResponse: a body above the limit is replaced by a 413. */
  function Limited(r: Reply, maxBody: nat, verb: int, w: World): Reply {
    if maxBody < Length(r.body) && maxBody != 0 then StatusReply(REQUEST_ENTITY_TOO_LARGE, verb, w) else r
  }

  predicate WantsClose(p: State) { HeaderValue(p.m.headers, "Connection") == "close" }

  /** The first listed server with the active listen value that names the host; the active one
      when there is none. */
  function SelectConfig(listed: seq<Settings>, active: Settings, host: string): Settings {
    if listed == [] then active
    else if listed[0].listen == active.listen && host in listed[0].serverName then listed[0]
    else SelectConfig(listed[1..], active, host)
  }

  /** The first location with this uri, or the number of locations. */
  function LocationIndex(locations: seq<Settings>, uri: string, i: nat := 0): (k: nat)
    requires i <= |locations|
    ensures i <= k <= |locations|
    ensures k < |locations| ==> locations[k].uri == uri
    ensures forall j :: i <= j < k ==> locations[j].uri != uri
    decreases |locations| - i
  {
    if i == |locations| || locations[i].uri == uri then i else LocationIndex(locations, uri, i + 1)
  }

  /** check_allowed_methods: the location used, and the request URI below it. */
  function Located(s: Settings, p: State): (nat, string) {
    var k := LocationIndex(s.locations, p.configDir);
    if k == |s.locations| then (0, p.configDir + p.requestUri) else (k, p.requestUri)
  }

  predicate IsCgi(location: Settings, uri: string) {
    location.cgiExt != "" && Find(uri, location.cgiExt) < |uri|
  }

  /** The four methods that act on a resource. */
  function MethodReply(max: nat, p: State, cgi: bool, w: World): Reply
    requires Sane(w)
  {
    var close, r := WantsClose(p), w.resource;
    var own := if cgi then Scan(w.cgiOutput).value.0 else [];
    var data := if cgi then Some(Scan(w.cgiOutput).value.1) else p.m.data;
    var length := ContentLength(if cgi then |Scan(w.cgiOutput).value.1| else p.m.dataLen);
    if p.verb == GET || p.verb == HEAD then
      if r.None? then StatusReply(NOT_FOUND, p.verb, w)
      else
        var fields := own + [Field("Content-Type", r.value.mime), ContentLength(|r.value.data|)];
        var status := if r.value.isDirectory then NOT_FOUND else OK;
        var body := if p.verb == HEAD then None else if cgi then data else Some(r.value.data);
        Limited(Response(status, fields, body, close, w), max, p.verb, w)
    else if p.verb == POST then
      if r.Some? then
        var fields := own + [Field("Content-Type", r.value.mime), length];
        Limited(Response(OK, fields, data, close, w), max, p.verb, w)
      else if !w.canOpen then StatusReply(NOT_IMPLEMENTED, p.verb, w)
      else
        var fields := own + [Field("Location", p.requestUri), length];
        Limited(Response(CREATED, fields, if cgi then data else None, close, w), max, p.verb, w)
    else if p.verb == PUT then
      if !w.canOpen then StatusReply(NOT_IMPLEMENTED, p.verb, w)
      else if r.None? then
        var fields := own + [Field("Location", w.basePath + p.requestUri), Field("Content-Length", "0")];
        Response(CREATED, fields, None, close, w)
      else Response(NO_CONTENT, own + [Field("Location", r.value.location)], None, close, w)
    else if r.None? then StatusReply(NOT_FOUND, p.verb, w)
    else
      var fields := [Field("Content-Type", "text/html"), ContentLength(|DELETED_PAGE|)];
      Limited(Response(OK, fields, Some(DELETED_PAGE), close, w), max, p.verb, w)
  }

  predicate IsRedirect(location: Settings, k: nat) {
    k != 0 && location.statusCode != 0 && location.redir != ""
  }

  /** The answer to a complete request under the selected server. */
  function Verdict(s: Settings, p: State, w: World): Reply
    requires |s.locations| > 0 && Sane(w)
  {
    var (k, uri) := Located(s, p);
    var location := s.locations[k];
    if MethodName(p.verb) !in location.methods then StatusReply(METHOD_NOT_ALLOW, p.verb, w)
    else if IsRedirect(location, k) then
      if p.verb != GET then StatusReply(METHOD_NOT_ALLOW, p.verb, w)
      else if location.statusCode == MOVED_PERMANENTLY || location.statusCode == FOUND then
        Response(location.statusCode, [Field("Location", location.redir)], None, false, w)
      else StatusReply(BAD_REQUEST, p.verb, w)
    else MethodReply(location.maxBodySize, p.(requestUri := uri), IsCgi(location, uri), w)
  }

  /** Which server answers: a refused request is answered without choosing one. */
  function Chosen(listed: seq<Settings>, active: Settings, p: State): Settings {
    if p.phase == Complete then SelectConfig(listed, active, HeaderValue(p.m.headers, "Host")) else active
  }

  function Answer(listed: seq<Settings>, active: Settings, p: State, w: World): Reply
    requires Sane(w) && |Chosen(listed, active, p).locations| > 0
  {
    if p.phase == Complete then Verdict(Chosen(listed, active, p), p, w)
    else StatusReply(BAD_REQUEST, p.verb, w)
  }

  /** The bytes of a reply. */
  function PrintReply(r: Reply): string {
    PrintResponse(r.status, Reason(r.status, ""), r.headers, r.body)
  }

  /** The reply was put into the queue, unless it is too long for the buffer it is printed in. */
  ghost predicate SentBy(before: ClientView, after: ClientView, sent: bool, r: Reply) {
    && sent == (|PrintReply(r)| <= INT_MAX)
    && after == if sent then Enqueue(before, PrintReply(r), r.disconnect) else before
  }

  lemma SentDropped(before: ClientView, after: ClientView, sent: bool, r: Reply)
    requires SentBy(before, after, sent, r)
    ensures SentBy(DropRequest(before), DropRequest(after), sent, r)
  {
    hide PrintReply;
  }

  // ------------------------------------------------------------------ steps

  datatype Event =
    | Accept(fd: int)
    | Eof(fd: int)
    | Readable(fd: int, bytes: string, ok: bool, world: World)
    | Writable(fd: int, avail: nat, sent: int)

  /** `closed` remembers the connections that are gone.  A halted server takes no more steps: it
      is in the endless loop over a negative chunk size, or a size left the range of int. */
  datatype ServerView = ServerView(
    active: Settings, clients: map<int, ClientView>, closed: seq<ClientView>, halted: bool)

  /** Configurations for which every complete request has an answer. */
  predicate Serves(s: Settings) {
    && |s.locations| > 0
    && forall k :: 0 <= k < |s.locations| ==> "" !in s.locations[k].methods
  }

  predicate AllServe(listed: seq<Settings>) { forall i :: 0 <= i < |listed| ==> Serves(listed[i]) }

  /** What recvRequestData makes of the receive buffer: it is cut at the first NUL, and it is all
      zero when nothing was received. */
  function SegmentOf(bytes: string, ok: bool): string {
    if ok then CString(bytes) else ""
  }

  function Buffered(c: ClientView): nat {
    if c.request.Some? then |c.request.value.m.buf| else 0
  }

  function Closed(s: ServerView, fd: int, c: ClientView): ServerView {
    s.(clients := s.clients - {fd}, closed := s.closed + [c])
  }

  function Updated(s: ServerView, fd: int, c: ClientView): ServerView {
    s.(clients := s.clients[fd := c])
  }

  /** How a read event leaves its connection. */
  datatype ReadOutcome = ReadOutcome(active: Settings, client: ClientView, alive: bool, halted: bool)

  /** One item on the queue, and the request gone. */
  function Answered(c: ClientView, chosen: Settings, r: Reply): ReadOutcome {
    if |PrintReply(r)| > INT_MAX then ReadOutcome(chosen, DropRequest(c), true, true)
    else ReadOutcome(chosen, Enqueue(DropRequest(c), PrintReply(r), r.disconnect), true, false)
  }

  /** What readClient does with `segment`; `ok` says that recv returned a positive length. */
  ghost predicate ReadsTo(listed: seq<Settings>, active: Settings, c: ClientView, segment: string, ok: bool,
      w: World, o: ReadOutcome)
    requires Sane(w) && (c.request.Some? ==> Inv(c.request.value))
    requires AllServe(listed) && Serves(active)
  {
    if Buffered(c) + |segment| > INT_MAX then o == ReadOutcome(active, c, true, true)
    else
      var d := Receive(c, segment);
      var p := d.request.value;
      if p.phase == Spinning then o == ReadOutcome(active, d, true, true)
      else if !ok then o == ReadOutcome(active, d, false, false)
      else if !IsOver(p) then o == ReadOutcome(active, d, true, false)
      else
        ChosenServes(listed, active, p);
        o == Answered(d, Chosen(listed, active, p), Answer(listed, active, p, w))
  }

  lemma ReadGoesOn(listed: seq<Settings>, active: Settings, c: ClientView, segment: string, ok: bool, w: World)
    requires Sane(w) && (c.request.Some? ==> Inv(c.request.value)) && AllServe(listed) && Serves(active)
    ensures
      var d := Receive(c, segment);
      var p := d.request.value;
      if Buffered(c) + |segment| > INT_MAX then
        ReadsTo(listed, active, c, segment, ok, w, ReadOutcome(active, c, true, true))
      else if p.phase == Spinning then ReadsTo(listed, active, c, segment, ok, w, ReadOutcome(active, d, true, true))
      else if !ok then ReadsTo(listed, active, c, segment, ok, w, ReadOutcome(active, d, false, false))
      else !IsOver(p) ==> ReadsTo(listed, active, c, segment, ok, w, ReadOutcome(active, d, true, false))
  {
    hide RequestSpec.Parse, Answer, Chosen, PrintReply;
  }

  /** A read event that ended a request, put together from its parts. */
  lemma ReadEnds(listed: seq<Settings>, active: Settings, c: ClientView, segment: string, w: World,
      x: ClientView, sent: bool)
    requires Sane(w) && (c.request.Some? ==> Inv(c.request.value)) && AllServe(listed) && Serves(active)
    requires Buffered(c) + |segment| <= INT_MAX && IsOver(Receive(c, segment).request.value)
    requires Serves(Chosen(listed, active, Receive(c, segment).request.value))
    requires SentBy(DropRequest(Receive(c, segment)), DropRequest(x), sent,
                    Answer(listed, active, Receive(c, segment).request.value, w))
    ensures ReadsTo(listed, active, c, segment, true, w,
                    ReadOutcome(Chosen(listed, active, Receive(c, segment).request.value),
                                DropRequest(x), true, !sent))
  {
    hide RequestSpec.Parse, Answer, Chosen, PrintReply;
  }

  /** The server after a read event on fd. */
  function AfterRead(s: ServerView, fd: int, o: ReadOutcome): ServerView {
    var t := s.(active := o.active, halted := o.halted);
    if o.alive then Updated(t, fd, o.client) else Closed(t, fd, o.client)
  }

  ghost predicate Step(listed: seq<Settings>, s: ServerView, e: Event, s': ServerView)
    requires AllServe(listed) && ServerInv(s) && (e.Readable? ==> Sane(e.world))
  {
    !s.halted &&
    match e
    case Accept(fd) => s' == if fd in s.clients then s else Updated(s, fd, NEW_CLIENT)
    case Eof(fd) => s' == if fd in s.clients then Closed(s, fd, s.clients[fd]) else s
    case Readable(fd, bytes, ok, w) =>
      if fd in s.clients then
        exists o ::
          && ReadsTo(listed, s.active, s.clients[fd], SegmentOf(bytes, ok), ok, w, o)
          && s' == AfterRead(s, fd, o)
      else s' == s
    case Writable(fd, avail, sent) =>
      if fd in s.clients then
        var (c, gone) := Send(s.clients[fd], avail, sent);
        s' == if gone then Closed(s, fd, c) else Updated(s, fd, c)
      else s' == s
  }

  lemma {:induction false} ChosenServes(listed: seq<Settings>, active: Settings, p: State)
    requires AllServe(listed) && Serves(active)
    ensures Serves(Chosen(listed, active, p)) && Chosen(listed, active, p).listen == active.listen
  {
    SelectServes(listed, active, HeaderValue(p.m.headers, "Host"));
  }

  lemma {:induction false} SelectServes(listed: seq<Settings>, active: Settings, host: string)
    requires AllServe(listed) && Serves(active)
    ensures Serves(SelectConfig(listed, active, host)) && SelectConfig(listed, active, host).listen == active.listen
  {
    if listed != [] { SelectServes(listed[1..], active, host); }
  }

  /** Virtual hosts: the server that answers is the first of the list that has the active listen
      value and names the host, and only without one the server stays the active one. */
  lemma {:induction false} SelectFirst(listed: seq<Settings>, active: Settings, host: string, k: nat)
    requires k <= |listed|
    requires forall j :: 0 <= j < k ==> !(listed[j].listen == active.listen && host in listed[j].serverName)
    requires k < |listed| ==> listed[k].listen == active.listen && host in listed[k].serverName
    ensures SelectConfig(listed, active, host) == if k < |listed| then listed[k] else active
  {
    if k > 0 { SelectFirst(listed[1..], active, host, k - 1); }
  }

  // ------------------------------------------------- what every step keeps

  /** A connection that is gone: the wire holds a prefix of its answers. */
  ghost predicate ClosedInv(c: ClientView) { c.wire <= Flatten(c.enqueued) }

  ghost predicate ServerInv(s: ServerView) {
    && (forall fd :: fd in s.clients ==> ClientInv(s.clients[fd]) && (s.halted || AllAnswered(s.clients[fd])))
    && (forall i :: 0 <= i < |s.closed| ==> ClosedInv(s.closed[i]))
    && Serves(s.active)
  }

  /** The request in progress after one more segment. */
  lemma ReceiveDelivers(c: ClientView, segment: string)
    requires ClientInv(c)
    ensures Receive(c, segment).request == Some(Deliver(Fresh(""), c.segments + [segment]))
  {
    hide RequestSpec.Parse, RequestSpec.Inv, QueueOk, Unsent, Flatten;
    var segments := c.segments + [segment];
    assert segments[..|segments| - 1] == c.segments && segments[|segments| - 1] == segment;
    if c.segments == [] { FeedFresh(segment); }
  }

  lemma ReceiveInv(c: ClientView, segment: string)
    requires ClientInv(c) && AllAnswered(c)
    ensures ClientInv(Receive(c, segment))
    ensures !IsOver(Receive(c, segment).request.value) ==> AllAnswered(Receive(c, segment))
  {
    hide Deliver, RequestSpec.Parse, RequestSpec.Inv, Unsent, Flatten, Fed;
    ReceiveDelivers(c, segment);
  }

  lemma {:induction false} UnsentAppend(a: seq<Item>, b: seq<Item>)
    ensures Unsent(a + b) == Unsent(a) + Unsent(b)
  {
    if a == [] {
      assert a + b == b;
    } else {
      assert (a + b)[1..] == a[1..] + b;
      UnsentAppend(a[1..], b);
    }
  }

  lemma EnqueueInv(c: ClientView, data: string, disconnect: bool)
    requires QueueOk(c.queue) && c.wire + Unsent(c.queue) == Flatten(c.enqueued) && data != ""
    requires c.request == None && c.segments == [] && |c.finished| == |c.enqueued| + 1
    ensures ClientInv(Enqueue(c, data, disconnect)) && AllAnswered(Enqueue(c, data, disconnect))
  {
    hide Deliver, Flatten, Unsent;
    var i := Item(data, 0, disconnect);
    UnsentAppend(c.queue, [i]);
    UnsentOne(i);
    FlattenAppend(c.enqueued, [data]);
    FlattenOne(data);
    assert c.wire + (Unsent(c.queue) + data) == c.wire + Unsent(c.queue) + data;
  }

  lemma UnsentOne(i: Item)
    ensures Unsent([i]) == Rest(i)
  {
    assert [i][1..] == [] && Rest(i) + "" == Rest(i);
  }

  lemma FlattenOne(data: string)
    ensures Flatten([data]) == data
  {
    assert [data][1..] == [] && data + "" == data;
  }

  lemma AdvancedUnsent(queue: seq<Item>, offset: nat)
    requires queue != [] && queue[0].offset <= offset <= |queue[0].data|
    ensures queue[0].data[queue[0].offset..offset] + Unsent(Advanced(queue, offset)) == Unsent(queue)
  {
    hide Unsent;
    var i, later := queue[0], queue[1..];
    var gone, left := i.data[i.offset..offset], i.data[offset..];
    assert gone + left == Rest(i);
    UnsentFront(i, later);
    assert [i] + later == queue;
    if offset < |i.data| {
      UnsentFront(i.(offset := offset), later);
      SplitWire(gone, left, Unsent(later));
    } else {
      assert gone + "" == gone;
    }
  }

  lemma UnsentFront(i: Item, later: seq<Item>)
    ensures Unsent([i] + later) == Rest(i) + Unsent(later)
  {
    assert ([i] + later)[1..] == later;
  }

  /** Sending moves bytes from the queue to the wire and changes nothing else. */
  lemma SendInv(c: ClientView, avail: nat, sent: int)
    requires ClientInv(c)
    ensures ClientInv(Send(c, avail, sent).0)
    ensures AllAnswered(c) ==> AllAnswered(Send(c, avail, sent).0)
  {
    hide Deliver, Flatten, Unsent;
    if c.queue != [] {
      var i := c.queue[0];
      var n := Actual(i, avail, sent);
      var offset := if n >= 0 then i.offset + n else i.offset;
      AdvancedUnsent(c.queue, offset);
      assert Send(c, avail, sent).0.queue == Advanced(c.queue, offset);
      SplitWire(c.wire, i.data[i.offset..offset], Unsent(Advanced(c.queue, offset)));
    }
  }

  lemma SplitWire(a: string, b: string, c: string)
    ensures a + b + c == a + (b + c)
  {
  }

  lemma ClosePrefix(c: ClientView)
    requires ClientInv(c)
    ensures ClosedInv(c)
  {
    assert c.wire + Unsent(c.queue) == Flatten(c.enqueued);
  }
}
