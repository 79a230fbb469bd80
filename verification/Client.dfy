/** Client and SendQueueItem: one connection with the request being read and its send queue. */
module Clients {
  import opened Wrappers
  import opened CLib
  import opened RequestSpec
  import opened Requests
  import opened ServerSpec

  class SendQueueItem {
    const sendData: string
    const disconnect: bool
    var sendOffset: nat

    constructor (data: string, dc: bool)
      ensures sendData == data && disconnect == dc && sendOffset == 0
    {
      sendData, disconnect, sendOffset := data, dc, 0;
    }

    function View(): Item
      reads this
    {
      Item(sendData, sendOffset, disconnect)
    }
  }

  class Client {
    const fd: int
    var req: HttpRequest?
    var sendQueue: seq<SendQueueItem>

    ghost var segments: seq<string>
    ghost var finished: seq<State>
    ghost var enqueued: seq<string>
    ghost var wire: string

    /** The objects that make up the connection. */
    ghost function Repr(): set<object>
      reads this
    {
      {this as object} + Items() + RequestRepr()
    }

    ghost function Items(): set<object>
      reads this
    {
      set i | i in sendQueue :: i as object
    }

    lemma ItemsOf()
      ensures forall k :: 0 <= k < |sendQueue| ==> sendQueue[k] in Items()
    {
      assert forall k :: 0 <= k < |sendQueue| ==> sendQueue[k] in sendQueue;
    }

    ghost function RequestRepr(): set<object>
      reads this
    {
      if req == null then {} else {req, req.msg, req.msg.buffer}
    }

    ghost predicate Valid()
      reads this, sendQueue, RequestRepr()
    {
      && (forall i, j :: 0 <= i < j < |sendQueue| ==> sendQueue[i] != sendQueue[j])
      && (forall i :: 0 <= i < |sendQueue| ==> sendQueue[i].sendOffset < |sendQueue[i].sendData|)
      && (req != null ==> req.Valid())
    }

    ghost function Queue(): seq<Item>
      reads this, sendQueue, RequestRepr()
    {
      seq(|sendQueue|, i requires 0 <= i < |sendQueue| reads this, sendQueue => sendQueue[i].View())
    }

    ghost function View(): ClientView
      reads this, sendQueue, RequestRepr()
    {
      ClientView(if req == null then None else Some(req.View()), segments, Queue(), finished, enqueued, wire)
    }

    /** What the view says of the request and its buffer. */
    lemma ViewFacts()
      requires Valid()
      ensures View().request == if req == null then None else Some(req.View())
      ensures req != null ==> Inv(req.View())
      ensures Buffered(View()) == Waiting() && QueueOk(View().queue)
    {
    }

    /** How many bytes wait in the buffer of the request. */
    function Waiting(): nat
      reads this, RequestRepr()
    {
      if req == null then 0 else |req.msg.buffer.buf|
    }

    /** The front of the queue. */
    lemma FrontFacts()
      requires Valid()
      ensures forall i :: 1 <= i < |sendQueue| ==> sendQueue[i] != sendQueue[0]
      ensures |Queue()| == |sendQueue|
      ensures sendQueue != [] ==> Queue()[0] == sendQueue[0].View()
      ensures sendQueue != [] ==> sendQueue[0].sendOffset < |sendQueue[0].sendData|
    {
    }

    /** A connection none of whose objects changed is what it was. */
    twostate lemma Framed()
      requires unchanged(this) && unchanged(sendQueue) && unchanged(RequestRepr())
      ensures View() == old(View()) && Valid() == old(Valid()) && Repr() == old(Repr())
    {
    }

    /** The objects of a connection were there before. */
    twostate lemma ReprWasThere()
      ensures forall o :: o in old(Repr()) ==> !fresh(o)
    {
    }

    /** New objects of a connection are no objects of another one. */
    twostate lemma StillApart(other: Client)
      requires old(Repr() !! other.Repr())
      requires fresh(Repr() - old(Repr())) && other.Repr() == old(other.Repr())
      ensures Repr() !! other.Repr()
    {
      hide Repr;
      other.ReprWasThere();
    }

    /** A queue none of whose items changed is what it was. */
    twostate lemma QueueKept()
      requires unchanged(this`sendQueue) && unchanged(sendQueue)
      ensures Queue() == old(Queue())
      ensures forall i :: 0 <= i < |sendQueue| ==> sendQueue[i].sendOffset == old(sendQueue[i].sendOffset)
    {
    }

    /** A connection whose front item moved on, and left the queue if that was its end. */
    twostate lemma FrontMoved(offset: nat)
      requires old(Valid()) && old(sendQueue) != [] && offset == old(sendQueue)[0].sendOffset
      requires sendQueue == if offset >= |old(sendQueue)[0].sendData| then old(sendQueue)[1..] else old(sendQueue)
      requires forall i :: 1 <= i < |old(sendQueue)| ==> old(sendQueue)[i].sendOffset == old(sendQueue[i].sendOffset)
      requires unchanged(this`req) && unchanged(RequestRepr())
      ensures Valid() && Repr() <= old(Repr()) && Queue() == Advanced(old(Queue()), offset)
    {
      hide Inv, Advanced;
      var q, d := old(sendQueue), if offset >= |old(sendQueue)[0].sendData| then 1 else 0;
      var before, after := old(Queue()), Queue();
      assert sendQueue == q[d..] && before[0] == old(q[0].View());
      forall k | 0 <= k < |sendQueue|
        ensures sendQueue[k] == q[k + d] && sendQueue[k].sendOffset < |sendQueue[k].sendData|
        ensures AdvancedAt(before, offset, d, after, k)
      {
        if k + d != 0 { assert before[k + d] == old(q[k + d].View()); }
      }
      AdvancedIs(before, offset, d, after);
      assert forall i :: i in sendQueue ==> i in q;
    }

    predicate AdvancedAt(q: seq<Item>, offset: nat, d: nat, r: seq<Item>, k: nat)
      requires q != [] && |r| == |q| - d && k < |r|
    {
      r[k] == if k + d == 0 then q[0].(offset := offset) else q[k + d]
    }

    lemma AdvancedIs(q: seq<Item>, offset: nat, d: nat, r: seq<Item>)
      requires q != [] && d == (if offset >= |q[0].data| then 1 else 0) && |r| == |q| - d
      requires forall k :: 0 <= k < |r| ==> AdvancedAt(q, offset, d, r, k)
      ensures r == Advanced(q, offset)
    {
      assert |r| == |Advanced(q, offset)|;
      forall k | 0 <= k < |r| ensures r[k] == Advanced(q, offset)[k] {
        assert AdvancedAt(q, offset, d, r, k);
      }
    }

    /** A connection of which at most the complete request itself changed. */
    twostate lemma RequestChanged(uri: string)
      requires unchanged(this) && unchanged(sendQueue) && old(Valid()) && req != null
      requires unchanged(req.msg) && unchanged(req.msg.buffer)
      requires req.status == Complete && req.View() == old(req.View()).(requestUri := uri)
      ensures Valid() && DropRequest(View()) == DropRequest(old(View()))
    {
    }

    constructor (fd: int)
      ensures this.fd == fd && Valid() && View() == NEW_CLIENT && Repr() == {this}
    {
      this.fd := fd;
      req := null;
      sendQueue := [];
      segments, finished, enqueued, wire := [], [], [], "";
    }

    /** A new request for the first bytes, more bytes for the one there is; the C string ends at
        its first NUL. */
    method RecvRequestData(buf: string)
      requires Valid() && Buffered(View()) + |CString(buf)| <= INT_MAX
      modifies this`req, RequestRepr()
      ensures Valid() && req != null && fresh(RequestRepr() - old(RequestRepr()))
      ensures sendQueue == old(sendQueue)
      ensures View() == old(View()).(request := Some(ServerSpec.Fed(old(View()).request, CString(buf))))
    {
      hide Inv, CString, Feed, Fresh, Queue;
      if req == null {
        req := new HttpRequest(CString(buf));
      } else {
        req.PutString(CString(buf));
      }
      QueueKept();
    }

    /** Runs the parser on the request. */
    method ParseRequest() returns (status: Phase)
      requires Valid() && req != null
      modifies RequestRepr()
      ensures Valid() && status == req.status == View().request.value.phase
      ensures View() == old(View()).(request := Some(Parse(old(View()).request.value)))
    {
      hide Inv, Parse, Queue;
      status := req.Parse();
      QueueKept();
    }

    /** For the specification: what arrived, and the request if it is over. */
    ghost method Record(segment: string)
      requires Valid() && req != null
      modifies this`segments, this`finished
      ensures Valid() && View() == Noted(old(View()), segment)
    {
      hide Inv, Parse, Queue;
      segments := segments + [segment];
      if IsOver(req.View()) {
        finished := finished + [req.View()];
      }
      QueueKept();
    }

    method DeleteRequest()
      requires Valid()
      modifies this`req, this`segments
      ensures Valid() && View() == DropRequest(old(View())) && Repr() <= old(Repr())
    {
      req := null;
      segments := [];
    }

    method AddToSendQueue(item: SendQueueItem)
      requires Valid() && item !in sendQueue && item.sendOffset == 0 && item.sendData != ""
      modifies this`sendQueue, this`enqueued
      ensures Valid() && View() == Enqueue(old(View()), item.sendData, item.disconnect)
      ensures Repr() == old(Repr()) + {item} && req == old(req)
    {
      sendQueue := sendQueue + [item];
      enqueued := enqueued + [item.sendData];
      assert Queue() == old(Queue()) + [item.View()];
      assert Items() == old(Items()) + {item} by {
        assert forall i :: i in sendQueue <==> i in old(sendQueue) || i == item;
      }
    }

    method NextInSendQueue() returns (item: SendQueueItem?)
      ensures item == if sendQueue == [] then null else sendQueue[0]
    {
      if sendQueue == [] { return null; }
      item := sendQueue[0];
    }

    method DequeueFromSendQueue()
      modifies this`sendQueue
      ensures sendQueue == if old(sendQueue) == [] then [] else old(sendQueue)[1..]
    {
      var item := NextInSendQueue();
      if item != null {
        sendQueue := sendQueue[1..];
      }
    }
  }
}
