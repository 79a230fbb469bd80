/** What holds over whole runs of the server. */
module ServerRuns {
  import opened Wrappers
  import opened Text
  import opened RequestSpec
  import opened Segmentation
  import opened Chunked
  import opened ConfigSpec
  import opened ServerSpec

  lemma PrintedNotEmpty(r: Reply)
    ensures PrintReply(r) != ""
  {
  }

  /** A read event that ended a request. */
  lemma ReadAnswers(listed: seq<Settings>, active: Settings, c: ClientView, segment: string, w: World, o: ReadOutcome)
    requires ClientInv(c) && AllServe(listed) && Serves(active) && Sane(w)
    requires ReadsTo(listed, active, c, segment, true, w, o) && Buffered(c) + |segment| <= CLib.INT_MAX
    requires IsOver(Receive(c, segment).request.value)
    ensures
      var p := Receive(c, segment).request.value;
      && Serves(Chosen(listed, active, p)) && |Chosen(listed, active, p).locations| > 0
      && Chosen(listed, active, p).listen == active.listen
      && o == Answered(Receive(c, segment), Chosen(listed, active, p), Answer(listed, active, p, w))
  {
    hide Deliver, RequestSpec.Parse, Answer, Chosen, PrintReply;
    ChosenServes(listed, active, Receive(c, segment).request.value);
  }

  lemma ReadInv(listed: seq<Settings>, active: Settings, c: ClientView, segment: string, ok: bool, w: World,
      o: ReadOutcome)
    requires ClientInv(c) && AllAnswered(c) && AllServe(listed) && Serves(active) && Sane(w)
    requires ReadsTo(listed, active, c, segment, ok, w, o)
    ensures ClientInv(o.client) && Serves(o.active) && o.active.listen == active.listen
    ensures o.alive && !o.halted ==> AllAnswered(o.client)
  {
    hide Deliver, RequestSpec.Parse, Answer, Chosen, Serves, PrintReply;
    if Buffered(c) + |segment| <= CLib.INT_MAX {
      var d := Receive(c, segment);
      ReceiveInv(c, segment);
      var p := d.request.value;
      if p.phase != Spinning && ok && IsOver(p) {
        ReadAnswers(listed, active, c, segment, w, o);
        var r := Answer(listed, active, p, w);
        PrintedNotEmpty(r);
        EnqueueInv(DropRequest(d), PrintReply(r), r.disconnect);
      }
    }
  }

  lemma ReadStepInv(listed: seq<Settings>, s: ServerView, e: Event, s': ServerView)
    requires AllServe(listed) && ServerInv(s) && e.Readable? && Sane(e.world) && Step(listed, s, e, s')
    ensures ServerInv(s') && s'.active.listen == s.active.listen
  {
    hide Deliver, RequestSpec.Parse, ReadsTo, Serves, SegmentOf;
    if e.fd in s.clients {
      var segment := SegmentOf(e.bytes, e.ok);
      var o :| ReadsTo(listed, s.active, s.clients[e.fd], segment, e.ok, e.world, o) && s' == AfterRead(s, e.fd, o);
      ReadInv(listed, s.active, s.clients[e.fd], segment, e.ok, e.world, o);
      ClosePrefix(o.client);
    }
  }

  /** Every step keeps the invariant of all connections, and the listen value. */
  lemma StepInv(listed: seq<Settings>, s: ServerView, e: Event, s': ServerView)
    requires AllServe(listed) && ServerInv(s) && (e.Readable? ==> Sane(e.world)) && Step(listed, s, e, s')
    ensures ServerInv(s') && s'.active.listen == s.active.listen
  {
    hide Deliver, Send, Serves;
    match e {
      case Accept(fd) =>
        assert ClientInv(NEW_CLIENT);
      case Eof(fd) =>
        if fd in s.clients { ClosePrefix(s.clients[fd]); }
      case Readable(_, _, _, _) =>
        ReadStepInv(listed, s, e, s');
      case Writable(fd, avail, sent) =>
        if fd in s.clients {
          SendInv(s.clients[fd], avail, sent);
          ClosePrefix(Send(s.clients[fd], avail, sent).0);
        }
    }
  }

  /** A step touches only the connection of its event: every other one keeps its parser state,
      its queue and everything else. */
  lemma OthersUntouched(listed: seq<Settings>, s: ServerView, e: Event, s': ServerView, fd: int)
    requires AllServe(listed) && ServerInv(s) && (e.Readable? ==> Sane(e.world)) && Step(listed, s, e, s')
    requires fd != e.fd
    ensures fd in s.clients <==> fd in s'.clients
    ensures fd in s.clients ==> s'.clients[fd] == s.clients[fd]
  {
    hide Deliver, RequestSpec.Parse, ReadsTo, Serves, SegmentOf, Send;
  }

  // ------------------------------------------------------------------- runs

  ghost predicate AllSane(events: seq<Event>) {
    forall i :: 0 <= i < |events| ==> events[i].Readable? ==> Sane(events[i].world)
  }

  /** A run: `trace` has one state more than there were events. */
  ghost predicate IsRun(listed: seq<Settings>, trace: seq<ServerView>, events: seq<Event>)
    requires AllServe(listed) && AllSane(events)
  {
    && |trace| == |events| + 1
    && trace[0].clients == map[] && trace[0].closed == [] && !trace[0].halted && Serves(trace[0].active)
    && forall i :: 0 <= i < |events| ==> ServerInv(trace[i]) ==> Step(listed, trace[i], events[i], trace[i + 1])
  }

  /** In every state of every run: the bytes on each wire followed by the unsent bytes of the queue
      are the answers in order; a closed connection saw a prefix of them; each request in progress
      is what its segments deliver; every finished request has one answer; and the listen value
      is the one of the start. */
  lemma {:induction false} RunInv(listed: seq<Settings>, trace: seq<ServerView>, events: seq<Event>, k: nat)
    requires AllServe(listed) && AllSane(events) && IsRun(listed, trace, events) && k < |trace|
    ensures ServerInv(trace[k]) && trace[k].active.listen == trace[0].active.listen
  {
    hide ClientInv, ClosedInv, AllAnswered, Serves, Step;
    if k > 0 {
      RunInv(listed, trace, events, k - 1);
      StepInv(listed, trace[k - 1], events[k - 1], trace[k]);
    }
  }

  // ------------------------------------------- one answer for each request

  /** A read event adds one answer exactly when the request is over, and then the request is
      gone; the answer prints the verdict of the server that was chosen. */
  lemma OneAnswer(listed: seq<Settings>, s: ServerView, e: Event, s': ServerView)
    requires AllServe(listed) && ServerInv(s) && e.Readable? && Sane(e.world) && Step(listed, s, e, s')
    requires e.fd in s.clients && e.ok && !s'.halted
    ensures
      var c, p := s.clients[e.fd], Receive(s.clients[e.fd], SegmentOf(e.bytes, true)).request.value;
      && e.fd in s'.clients
      && if !IsOver(p) then s'.clients[e.fd].enqueued == c.enqueued && s'.clients[e.fd].request == Some(p)
         else
           && Serves(Chosen(listed, s.active, p)) && s'.active == Chosen(listed, s.active, p)
           && s'.clients[e.fd].request == None
           && var r := Answer(listed, s.active, p, e.world);
           && s'.clients[e.fd].enqueued == c.enqueued + [PrintReply(r)]
           && s'.clients[e.fd].queue == c.queue + [Item(PrintReply(r), 0, r.disconnect)]
  {
    hide Deliver, RequestSpec.Parse, Answer, Chosen, Serves, SegmentOf, PrintReply;
    var c, segment := s.clients[e.fd], SegmentOf(e.bytes, e.ok);
    var o :| ReadsTo(listed, s.active, c, segment, e.ok, e.world, o) && s' == AfterRead(s, e.fd, o);
    if IsOver(Receive(c, segment).request.value) {
      ReadAnswers(listed, s.active, c, segment, e.world, o);
    }
  }

  /** A chunked request that arrives over any number of read events is over, and answered, with
      the event that brings its last byte, and it is never refused. */
  lemma ChunkedExchange(c: ClientView, segment: string, head: string, pieces: seq<Piece>, last: Piece, rest: string)
    requires ClientInv(c) && IsChunkedHead(head) && ArePieces(pieces) && IsLast(last)
    requires Flatten(c.segments + [segment]) <= head + Encode(pieces, last) + rest
    ensures
      var p, n := Receive(c, segment).request.value, |Flatten(c.segments + [segment])|;
      && (IsOver(p) <==> n >= |head| + |Encode(pieces, last)|)
      && (IsOver(p) ==> p.phase == Complete && p.m.data == Some(Data(pieces)))
      && p.phase != Spinning
  {
    hide RequestSpec.Parse, RequestSpec.Inv, IsChunkedHead, HeadStage, ArePieces, IsLast, Deliver, Encode,
        Flatten, ClientInv, Receive;
    ReceiveDelivers(c, segment);
    ChunkedDelivery(head, pieces, last, rest, c.segments + [segment]);
  }

  // ---------------------------------------------------------------- draining

  /** The connection after a number of write events. */
  function SendAll(c: ClientView, sends: seq<(nat, int)>): (d: ClientView)
    requires QueueOk(c.queue)
    decreases |sends|
  {
    if sends == [] then c
    else
      SendKeepsQueueOk(c, sends[0].0, sends[0].1);
      SendAll(Send(c, sends[0].0, sends[0].1).0, sends[1..])
  }

  /** None of the write events closes the connection. */
  predicate StaysOpen(c: ClientView, sends: seq<(nat, int)>)
    requires QueueOk(c.queue)
    decreases |sends|
  {
    sends == [] ||
    (SendKeepsQueueOk(c, sends[0].0, sends[0].1);
     !Send(c, sends[0].0, sends[0].1).1 && StaysOpen(Send(c, sends[0].0, sends[0].1).0, sends[1..]))
  }

  lemma SendKeepsQueueOk(c: ClientView, avail: nat, sent: int)
    requires QueueOk(c.queue)
    ensures QueueOk(Send(c, avail, sent).0.queue)
  {
    if c.queue != [] {
      var d := Send(c, avail, sent).0;
      forall k | 0 <= k < |d.queue| ensures d.queue[k].offset < |d.queue[k].data| {
        if |d.queue| == |c.queue| {
          assert k > 0 ==> d.queue[k] == c.queue[k];
        } else {
          assert d.queue[k] == c.queue[k + 1];
        }
      }
    }
  }

  predicate NoneFlagged(queue: seq<Item>) { forall i :: 0 <= i < |queue| ==> !queue[i].disconnect }

  lemma UnsentPositive(queue: seq<Item>)
    requires QueueOk(queue) && queue != []
    ensures |Unsent(queue)| > 0
  {
  }

  /** One write event that sends something shortens what is left by just that much, never moves
      an offset past its size, and does not close the connection unless the item is flagged. */
  lemma SendDrains(c: ClientView, avail: nat, sent: int)
    requires QueueOk(c.queue) && c.queue != [] && sent > 0
    ensures QueueOk(Send(c, avail, sent).0.queue)
    ensures |Unsent(Send(c, avail, sent).0.queue)| < |Unsent(c.queue)|
    ensures |Send(c, avail, sent).0.wire| - |c.wire| == |Unsent(c.queue)| - |Unsent(Send(c, avail, sent).0.queue)|
    ensures Send(c, avail, sent).1 == c.queue[0].disconnect
    ensures NoneFlagged(c.queue) ==> NoneFlagged(Send(c, avail, sent).0.queue)
  {
    hide Unsent, RequestSpec.Parse;
    SendKeepsQueueOk(c, avail, sent);
    var i := c.queue[0];
    var n := Actual(i, avail, sent);
    assert n > 0;
    AdvancedUnsent(c.queue, i.offset + n);
    var d := Send(c, avail, sent).0;
    assert d.queue == Advanced(c.queue, i.offset + n);
  }

  /** Without flagged items, as many writing events as there are unsent bytes empty the queue,
      close nothing, and leave every answer complete on the wire. */
  lemma {:induction false} Drains(c: ClientView, sends: seq<(nat, int)>)
    requires ClientInv(c) && NoneFlagged(c.queue)
    requires forall k :: 0 <= k < |sends| ==> sends[k].1 > 0
    requires |sends| >= |Unsent(c.queue)|
    ensures SendAll(c, sends).queue == [] && SendAll(c, sends).wire == Flatten(c.enqueued) && StaysOpen(c, sends)
    decreases |sends|
  {
    hide Deliver, Send;
    if c.queue == [] {
      assert c.wire + "" == c.wire;
      NothingToSend(c, sends);
    } else {
      UnsentPositive(c.queue);
      SendDrains(c, sends[0].0, sends[0].1);
      SendInv(c, sends[0].0, sends[0].1);
      SendKeeps(c, sends[0].0, sends[0].1);
      Drains(Send(c, sends[0].0, sends[0].1).0, sends[1..]);
    }
  }

  lemma SendKeeps(c: ClientView, avail: nat, sent: int)
    requires QueueOk(c.queue)
    ensures Send(c, avail, sent).0.enqueued == c.enqueued && Send(c, avail, sent).0.finished == c.finished
  {
  }

  lemma {:induction false} NothingToSend(c: ClientView, sends: seq<(nat, int)>)
    requires c.queue == []
    ensures SendAll(c, sends) == c && StaysOpen(c, sends)
    decreases |sends|
  {
    if sends != [] { NothingToSend(c, sends[1..]); }
  }

  /** A flagged item closes the connection with its first write, even a partial one.  One write
      takes at most 1300 bytes, so the item can arrive whole if and only if no more than that
      is left of it. */
  lemma FlaggedItem(c: ClientView)
    requires QueueOk(c.queue) && c.queue != [] && c.queue[0].disconnect
    ensures forall avail, sent :: Send(c, avail, sent).1
    ensures (exists avail, sent :: Send(c, avail, sent).0.queue == c.queue[1..])
       <==> |c.queue[0].data| - c.queue[0].offset <= 1300
  {
    var i := c.queue[0];
    var left := |i.data| - i.offset;
    if left <= 1300 {
      assert Actual(i, 1300, left) == left;
      assert Send(c, 1300, left).0.queue == c.queue[1..];
    } else {
      forall avail: nat, sent: int ensures Send(c, avail, sent).0.queue != c.queue[1..] {
        var n := Actual(i, avail, sent);
        assert n <= 1300;
        assert |Send(c, avail, sent).0.queue| == |c.queue|;
      }
    }
  }

  // ------------------------------------------------------ answers in order

  /** The read event at position j of the run finds the connection on fd with `before` as its
      answers, completes the request p, and answers it with `data`: the answer of the server
      active at that point in the world of that event. */
  ghost predicate AnswersAt(listed: seq<Settings>, trace: seq<ServerView>, events: seq<Event>, j: nat, fd: int,
                            before: seq<string>, p: State, data: string)
    requires j < |events| && j < |trace|
  {
    var s, e := trace[j], events[j];
    && e.Readable? && e.ok && e.fd == fd && Sane(e.world) && ServerInv(s) && fd in s.clients
    && s.clients[fd].enqueued == before
    && p == Receive(s.clients[fd], SegmentOf(e.bytes, true)).request.value && IsOver(p)
    && Serves(Chosen(listed, s.active, p))
    && data == PrintReply(Answer(listed, s.active, p, e.world))
  }

  /** Some event before position k did so. */
  ghost predicate AnsweredBy(listed: seq<Settings>, trace: seq<ServerView>, events: seq<Event>, k: nat, fd: int,
                             before: seq<string>, p: State, data: string)
    requires k <= |events| && k <= |trace|
  {
    exists j: nat :: j < k && AnswersAt(listed, trace, events, j, fd, before, p, data)
  }

  /** Each answer on the connection answers, in the event that ended it, the request at the same
      position; in the order of the run, because the answers before it were there then. */
  ghost predicate InOrder(listed: seq<Settings>, trace: seq<ServerView>, events: seq<Event>, k: nat, fd: int,
      c: ClientView)
    requires k <= |events| && k <= |trace|
  {
    && |c.enqueued| <= |c.finished|
    && forall i :: 0 <= i < |c.enqueued| ==>
      AnsweredBy(listed, trace, events, k, fd, c.enqueued[..i], c.finished[i], c.enqueued[i])
  }

  ghost predicate SomeInOrder(listed: seq<Settings>, trace: seq<ServerView>, events: seq<Event>, k: nat,
      c: ClientView)
    requires k <= |events| && k <= |trace|
  {
    exists fd :: InOrder(listed, trace, events, k, fd, c)
  }

  ghost predicate AllInOrder(listed: seq<Settings>, trace: seq<ServerView>, events: seq<Event>, k: nat)
    requires k <= |events| && k < |trace|
  {
    && (forall fd :: fd in trace[k].clients ==> InOrder(listed, trace, events, k, fd, trace[k].clients[fd]))
    && (forall i :: 0 <= i < |trace[k].closed| ==> SomeInOrder(listed, trace, events, k, trace[k].closed[i]))
  }

  lemma AnsweredStays(listed: seq<Settings>, trace: seq<ServerView>, events: seq<Event>, k: nat, fd: int,
      before: seq<string>, p: State, data: string)
    requires k < |events| && k < |trace| && AnsweredBy(listed, trace, events, k, fd, before, p, data)
    ensures AnsweredBy(listed, trace, events, k + 1, fd, before, p, data)
  {
    hide AnswersAt;
    var j: nat :| j < k && AnswersAt(listed, trace, events, j, fd, before, p, data);
  }

  /** What was in order stays so, whatever is sent or read behind it. */
  lemma OrderStays(listed: seq<Settings>, trace: seq<ServerView>, events: seq<Event>, k: nat, fd: int,
      c: ClientView, d: ClientView)
    requires k < |events| && k < |trace| && InOrder(listed, trace, events, k, fd, c)
    requires d.enqueued == c.enqueued && c.finished <= d.finished
    ensures InOrder(listed, trace, events, k + 1, fd, d)
  {
    hide AnsweredBy;
    forall i | 0 <= i < |d.enqueued|
      ensures AnsweredBy(listed, trace, events, k + 1, fd, d.enqueued[..i], d.finished[i], d.enqueued[i])
    {
      assert d.finished[i] == c.finished[i];
      AnsweredStays(listed, trace, events, k, fd, c.enqueued[..i], c.finished[i], c.enqueued[i]);
    }
  }

  /** One more answer, given in event k. */
  lemma OrderGrows(listed: seq<Settings>, trace: seq<ServerView>, events: seq<Event>, k: nat, fd: int,
      c: ClientView, d: ClientView, p: State, data: string)
    requires k < |events| && k < |trace| && InOrder(listed, trace, events, k, fd, c)
    requires |c.finished| == |c.enqueued| && d.enqueued == c.enqueued + [data] && d.finished == c.finished + [p]
    requires AnswersAt(listed, trace, events, k, fd, c.enqueued, p, data)
    ensures InOrder(listed, trace, events, k + 1, fd, d)
  {
    hide AnsweredBy, AnswersAt;
    forall i | 0 <= i < |d.enqueued|
      ensures AnsweredBy(listed, trace, events, k + 1, fd, d.enqueued[..i], d.finished[i], d.enqueued[i])
    {
      if i == |c.enqueued| {
        assert d.enqueued[..i] == c.enqueued;
        AnsweredNow(listed, trace, events, k, fd, c.enqueued, p, data);
      } else {
        assert d.enqueued[..i] == c.enqueued[..i];
        AnsweredStays(listed, trace, events, k, fd, c.enqueued[..i], c.finished[i], c.enqueued[i]);
      }
    }
  }

  lemma AnsweredNow(listed: seq<Settings>, trace: seq<ServerView>, events: seq<Event>, k: nat, fd: int,
      before: seq<string>, p: State, data: string)
    requires k < |events| && k < |trace| && AnswersAt(listed, trace, events, k, fd, before, p, data)
    ensures AnsweredBy(listed, trace, events, k + 1, fd, before, p, data)
  {
    hide AnswersAt;
  }

  /** What a read event leaves of its connection. */
  lemma ReadInOrder(listed: seq<Settings>, trace: seq<ServerView>, events: seq<Event>, k: nat, o: ReadOutcome)
    requires AllServe(listed) && k < |events| && k < |trace| && ServerInv(trace[k]) && !trace[k].halted
    requires events[k].Readable? && Sane(events[k].world) && events[k].fd in trace[k].clients
    requires InOrder(listed, trace, events, k, events[k].fd, trace[k].clients[events[k].fd])
    requires ReadsTo(listed, trace[k].active, trace[k].clients[events[k].fd],
                     SegmentOf(events[k].bytes, events[k].ok),
                     events[k].ok, events[k].world, o)
    ensures InOrder(listed, trace, events, k + 1, events[k].fd, o.client)
  {
    hide Deliver, RequestSpec.Parse, Answer, Chosen, Serves, PrintReply, SegmentOf, InOrder;
    var s, e := trace[k], events[k];
    var c, segment := s.clients[e.fd], SegmentOf(e.bytes, e.ok);
    if Buffered(c) + |segment| > CLib.INT_MAX {
      OrderStays(listed, trace, events, k, e.fd, c, o.client);
    } else {
      var d := Receive(c, segment);
      var p := d.request.value;
      if p.phase != Spinning && e.ok && IsOver(p) {
        ReadAnswers(listed, s.active, c, segment, e.world, o);
        var data := PrintReply(Answer(listed, s.active, p, e.world));
        assert AnswersAt(listed, trace, events, k, e.fd, c.enqueued, p, data);
        if |data| > CLib.INT_MAX {
          OrderStays(listed, trace, events, k, e.fd, c, o.client);
        } else {
          OrderGrows(listed, trace, events, k, e.fd, c, o.client, p, data);
        }
      } else {
        OrderStays(listed, trace, events, k, e.fd, c, o.client);
      }
    }
  }

  /** The connection of the event in step k. */
  lemma OneInOrder(listed: seq<Settings>, trace: seq<ServerView>, events: seq<Event>, k: nat) returns (c: ClientView)
    requires AllServe(listed) && k < |events| && k + 1 < |trace| && ServerInv(trace[k]) && AllSane(events)
    requires Step(listed, trace[k], events[k], trace[k + 1]) && AllInOrder(listed, trace, events, k)
    requires events[k].fd in trace[k].clients
    ensures InOrder(listed, trace, events, k + 1, events[k].fd, c)
    ensures var s, fd := trace[k], events[k].fd;
      || (trace[k + 1].clients == s.clients[fd := c] && trace[k + 1].closed == s.closed)
      || (trace[k + 1].clients == s.clients - {fd} && trace[k + 1].closed == s.closed + [c])
  {
    hide Deliver, Serves, ReadsTo, SegmentOf, InOrder, Send, ClientInv;
    var s, e, fd := trace[k], events[k], events[k].fd;
    c := s.clients[fd];
    InvFacts(c);
    match e {
      case Accept(_) =>
        OrderStays(listed, trace, events, k, fd, c, c);
        assert s.clients == s.clients[fd := c];
      case Eof(_) =>
        OrderStays(listed, trace, events, k, fd, c, c);
      case Writable(_, avail, sent) =>
        SendKeeps(c, avail, sent);
        OrderStays(listed, trace, events, k, fd, c, Send(c, avail, sent).0);
        c := Send(c, avail, sent).0;
      case Readable(_, bytes, ok, w) =>
        var o :| ReadsTo(listed, s.active, c, SegmentOf(bytes, ok), ok, w, o) && trace[k + 1] == AfterRead(s, fd, o);
        ReadInOrder(listed, trace, events, k, o);
        c := o.client;
    }
  }

  lemma InvFacts(c: ClientView)
    requires ClientInv(c)
    ensures QueueOk(c.queue) && (c.request.Some? ==> Inv(c.request.value))
  {
    hide Deliver, Unsent;
  }

  lemma StepInOrder(listed: seq<Settings>, trace: seq<ServerView>, events: seq<Event>, k: nat)
    requires AllServe(listed) && k < |events| && k + 1 < |trace| && ServerInv(trace[k]) && AllSane(events)
    requires Step(listed, trace[k], events[k], trace[k + 1]) && AllInOrder(listed, trace, events, k)
    ensures AllInOrder(listed, trace, events, k + 1)
  {
    hide Deliver, Serves, ReadsTo, SegmentOf, InOrder, Send, ClientInv;
    var s, t, fd := trace[k], trace[k + 1], events[k].fd;
    forall g | g in s.clients && g != fd
      ensures InOrder(listed, trace, events, k + 1, g, s.clients[g])
    {
      StaysInOrder(listed, trace, events, k, g, s.clients[g]);
    }
    forall i | 0 <= i < |s.closed|
      ensures SomeInOrder(listed, trace, events, k + 1, s.closed[i])
    {
      var g :| InOrder(listed, trace, events, k, g, s.closed[i]);
      StaysInOrder(listed, trace, events, k, g, s.closed[i]);
    }
    if fd in s.clients {
      var c := OneInOrder(listed, trace, events, k);
      assert SomeInOrder(listed, trace, events, k + 1, c);
    } else {
      NothingToAnswer(listed, trace, events, k + 1, fd);
      assert t.clients == s.clients || t.clients == s.clients[fd := NEW_CLIENT];
    }
  }

  lemma StaysInOrder(listed: seq<Settings>, trace: seq<ServerView>, events: seq<Event>, k: nat, fd: int,
      c: ClientView)
    requires k < |events| && k < |trace| && InOrder(listed, trace, events, k, fd, c)
    ensures InOrder(listed, trace, events, k + 1, fd, c)
  {
    hide InOrder;
    OrderStays(listed, trace, events, k, fd, c, c);
  }

  lemma NothingToAnswer(listed: seq<Settings>, trace: seq<ServerView>, events: seq<Event>, k: nat, fd: int)
    requires k <= |events| && k <= |trace|
    ensures InOrder(listed, trace, events, k, fd, NEW_CLIENT)
  {
  }

  /** In every run the i-th answer on a connection is, byte for byte, the answer to its i-th finished
      request, given in the event of the run that ended that request, by the server and in the
      world of that event. */
  lemma {:induction false} RunInOrder(listed: seq<Settings>, trace: seq<ServerView>, events: seq<Event>, k: nat)
    requires AllServe(listed) && AllSane(events) && IsRun(listed, trace, events) && k < |trace|
    ensures AllInOrder(listed, trace, events, k)
  {
    hide ClientInv, ClosedInv, AllAnswered, Serves, Step, InOrder;
    if k > 0 {
      RunInOrder(listed, trace, events, k - 1);
      RunInv(listed, trace, events, k - 1);
      StepInOrder(listed, trace, events, k - 1);
    }
  }
}
