/** What each kind of event does: what is sent, which connections are closed and which are new, and when
    the server goes on no more. */
module ServerLaws {
  import opened Wrappers
  import opened RequestSpec
  import opened Segmentation
  import opened ConfigSpec
  import opened ServerSpec
  import opened ServerRuns

  /** n bytes of the front item go out: no more than are left, than the kernel takes, than 1300, and than
      there is room for, or 64 when it says 0; and as many as that allows. */
  predicate Goes(n: nat, left: nat, avail: nat, sent: int) {
    && 0 < n <= left && n <= sent && n <= 1300 && n <= (if avail == 0 then 64 else avail)
    && (n == left || n == sent || n == 1300 || n == if avail == 0 then 64 else avail)
  }

  /** A write event, exactly.  An error or nothing sent changes nothing and closes the connection; so
      does an item flagged for it, whatever was sent. */
  lemma SendExact(c: ClientView, avail: nat, sent: int)
    requires QueueOk(c.queue)
    ensures c.queue == [] ==> Send(c, avail, sent) == (c, false)
    ensures c.queue != [] ==>
      && (Send(c, avail, sent).1 <==> c.queue[0].disconnect || sent <= 0)
      && (sent <= 0 ==> Send(c, avail, sent).0 == c)
      && (sent > 0 ==> exists n ::
            && Goes(n, |c.queue[0].data| - c.queue[0].offset, avail, sent)
            && Send(c, avail, sent).0 == Sent(c, n))
  {
    hide Goes, Sent;
    if c.queue != [] {
      if sent <= 0 {
        NothingSent(c, avail, sent);
      } else {
        var n := SomeSent(c, avail, sent);
      }
    }
  }

  lemma NothingSent(c: ClientView, avail: nat, sent: int)
    requires QueueOk(c.queue) && c.queue != [] && sent <= 0
    ensures Send(c, avail, sent) == (c, true)
  {
    var i := c.queue[0];
    assert [i] + c.queue[1..] == c.queue;
    assert c.wire + i.data[i.offset..i.offset] == c.wire;
    assert i.(offset := i.offset) == i;
  }

  lemma SomeSent(c: ClientView, avail: nat, sent: int) returns (n: nat)
    requires QueueOk(c.queue) && c.queue != [] && sent > 0
    ensures Goes(n, |c.queue[0].data| - c.queue[0].offset, avail, sent)
    ensures Send(c, avail, sent) == (Sent(c, n), c.queue[0].disconnect)
  {
    n := Actual(c.queue[0], avail, sent);
  }

  /** The connection after n bytes of its front item went out. */
  function Sent(c: ClientView, n: nat): ClientView
    requires c.queue != [] && c.queue[0].offset + n <= |c.queue[0].data|
  {
    var i, later := c.queue[0], c.queue[1..];
    c.(wire := c.wire + i.data[i.offset..i.offset + n],
       queue := if i.offset + n == |i.data| then later else [Item(i.data, i.offset + n, i.disconnect)] + later)
  }

  /** Which connections an event closes. */
  lemma ClosesExactly(listed: seq<Settings>, s: ServerView, e: Event, s': ServerView)
    requires AllServe(listed) && ServerInv(s) && (e.Readable? ==> Sane(e.world)) && Step(listed, s, e, s')
    requires e.fd in s.clients && !s'.halted
    ensures
      var c := s.clients[e.fd];
      e.fd !in s'.clients <==>
        match e
        case Accept(_) => false
        case Eof(_) => true
        case Readable(_, _, ok, _) => !ok
        case Writable(_, _, sent) => c.queue != [] && (c.queue[0].disconnect || sent <= 0)
  {
    hide Deliver, Serves, SegmentOf, Send, ClientInv, ReadsTo;
    var c := s.clients[e.fd];
    InvFacts(c);
    match e {
      case Accept(_) =>
      case Eof(_) =>
      case Readable(fd, bytes, ok, w) =>
        var o :| ReadsTo(listed, s.active, c, SegmentOf(bytes, ok), ok, w, o) && s' == AfterRead(s, fd, o);
        AliveIs(listed, s.active, c, SegmentOf(bytes, ok), ok, w, o);
      case Writable(_, avail, sent) =>
        SendExact(c, avail, sent);
    }
  }

  lemma AliveIs(listed: seq<Settings>, active: Settings, c: ClientView, segment: string, ok: bool, w: World,
      o: ReadOutcome)
    requires Sane(w) && (c.request.Some? ==> Inv(c.request.value)) && AllServe(listed) && Serves(active)
    requires ReadsTo(listed, active, c, segment, ok, w, o) && !o.halted
    ensures o.alive <==> ok
    ensures !ok ==> o.client == Receive(c, segment) && o.active == active
  {
    hide RequestSpec.Parse, Answer, Chosen, PrintReply, Serves;
  }

  /** A closed connection is the last of the closed ones, as the event left it: after an error in sending
      just as it was. */
  lemma ClosedLast(listed: seq<Settings>, s: ServerView, e: Event, s': ServerView)
    requires AllServe(listed) && ServerInv(s) && (e.Readable? ==> Sane(e.world)) && Step(listed, s, e, s')
    requires e.fd in s.clients && e.fd !in s'.clients && !s'.halted
    ensures s'.clients == s.clients - {e.fd} && |s'.closed| == |s.closed| + 1 && s.closed == s'.closed[..|s.closed|]
    ensures
      var c, last := s.clients[e.fd], s'.closed[|s.closed|];
      match e
      case Readable(_, _, _, _) => last == Receive(c, "")
      case Writable(_, avail, sent) => last == if sent <= 0 then c else Send(c, avail, sent).0
      case _ => last == c
  {
    hide Deliver, Serves, Send, ClientInv, ReadsTo, RequestSpec.Parse;
    var c := s.clients[e.fd];
    InvFacts(c);
    ClosesExactly(listed, s, e, s');
    match e {
      case Readable(fd, bytes, ok, w) =>
        var o :| ReadsTo(listed, s.active, c, SegmentOf(bytes, ok), ok, w, o) && s' == AfterRead(s, fd, o);
        AliveIs(listed, s.active, c, SegmentOf(bytes, ok), ok, w, o);
      case Writable(_, avail, sent) =>
        SendExact(c, avail, sent);
      case _ =>
    }
  }

  /** New connections have nothing yet, and an event on an unknown descriptor does nothing. */
  lemma ArrivesExactly(listed: seq<Settings>, s: ServerView, e: Event, s': ServerView)
    requires AllServe(listed) && ServerInv(s) && (e.Readable? ==> Sane(e.world)) && Step(listed, s, e, s')
    requires e.fd !in s.clients || e.Accept?
    ensures s' ==
      if e.Accept? && e.fd !in s.clients then s.(clients := s.clients[e.fd := ClientView(None, [], [], [], [], "")])
      else s
  {
    hide Deliver, Serves, SegmentOf, Send, ClientInv, ReadsTo;
  }

  /** When the server goes on no more: a buffer or an answer of more than 2^31 - 1 bytes, or the endless
      loop. */
  lemma HaltsExactly(listed: seq<Settings>, s: ServerView, e: Event, s': ServerView)
    requires AllServe(listed) && ServerInv(s) && (e.Readable? ==> Sane(e.world)) && Step(listed, s, e, s')
    ensures
      s'.halted <==>
        && e.Readable? && e.fd in s.clients
        && var c, segment := s.clients[e.fd], SegmentOf(e.bytes, e.ok);
           || Buffered(c) + |segment| > 2147483647
           || var p := Receive(c, segment).request.value;
              || p.phase == Spinning
              || (e.ok && IsOver(p) && |Chosen(listed, s.active, p).locations| > 0
                  && |PrintReply(Answer(listed, s.active, p, e.world))| > 2147483647)
  {
    hide Deliver, Serves, SegmentOf, Send, ClientInv, ReadsTo, RequestSpec.Parse, Answer, Chosen, PrintReply;
    if e.Readable? && e.fd in s.clients {
      var c, segment := s.clients[e.fd], SegmentOf(e.bytes, e.ok);
      InvFacts(c);
      var o :| ReadsTo(listed, s.active, c, segment, e.ok, e.world, o) && s' == AfterRead(s, e.fd, o);
      HaltedIs(listed, s.active, c, segment, e.ok, e.world, o);
    }
  }

  lemma HaltedIs(listed: seq<Settings>, active: Settings, c: ClientView, segment: string, ok: bool, w: World,
      o: ReadOutcome)
    requires Sane(w) && (c.request.Some? ==> Inv(c.request.value)) && AllServe(listed) && Serves(active)
    requires ReadsTo(listed, active, c, segment, ok, w, o)
    ensures
      o.halted <==>
        || Buffered(c) + |segment| > 2147483647
        || var p := Receive(c, segment).request.value;
           || p.phase == Spinning
           || (ok && IsOver(p) && |Chosen(listed, active, p).locations| > 0
               && |PrintReply(Answer(listed, active, p, w))| > 2147483647)
  {
    hide RequestSpec.Parse, Answer, Chosen, PrintReply;
    ChosenServes(listed, active, Receive(c, segment).request.value);
  }

  /** What a read event hands over: the bytes before the first NUL, and nothing when nothing came. */
  lemma SegmentIs(bytes: string, ok: bool)
    ensures !ok ==> SegmentOf(bytes, ok) == ""
    ensures ok ==>
      var r := SegmentOf(bytes, ok);
      '\0' !in r && r <= bytes && (r == bytes || bytes[|r|] == '\0')
  {
    hide CLib.CString;
  }
}
