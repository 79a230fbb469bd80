/** HTTPResponse: status line, headers and body as they go to the send queue. */
module Responses {
  import opened Wrappers
  import opened Text
  import opened Fields
  import opened CLib
  import opened RequestSpec
  import opened Messages
  import opened Libft

  // enum Status
  const CONTINUE := 100
  const OK := 200
  const CREATED := 201
  const NO_CONTENT := 204
  const MOVED_PERMANENTLY := 301
  const FOUND := 302
  const BAD_REQUEST := 400
  const NOT_FOUND := 404
  const METHOD_NOT_ALLOW := 405
  const REQUEST_ENTITY_TOO_LARGE := 413
  const SERVER_ERROR := 500
  const NOT_IMPLEMENTED := 501

  /** The reason phrase of a status; `before` when the status has none. */
  function Reason(status: int, before: string): string {
    if status == CONTINUE then "Continue"
    else if status == OK then "OK"
    else if status == CREATED then "Created"
    else if status == NO_CONTENT then "No Content"
    else if status == MOVED_PERMANENTLY then "Moved Permantly"
    else if status == FOUND then "Found"
    else if status == BAD_REQUEST then "Bad Request"
    else if status == NOT_FOUND then "Not Found"
    else if status == METHOD_NOT_ALLOW then "Method Not Allowed"
    else if status == SERVER_ERROR then "Internal Server Error"
    else if status == NOT_IMPLEMENTED then "Not Implemented"
    else if status == REQUEST_ENTITY_TOO_LARGE then "Request Entity Too Large"
    else before
  }

  /** What create() prints. */
  function PrintResponse(status: int, reason: string, headers: FieldMap, data: Option<string>): string {
    StatusLine(status, reason) + CRLF + PrintFields(headers) + if data.Some? then data.value else ""
  }

  function StatusLine(status: int, reason: string): string {
    HTTP_1_1 + " " + Decimal(status) + " " + reason
  }

  class HttpResponse {
    const msg: HttpMessage

    var status: int
    var reason: string

    ghost predicate Valid()
      reads this, msg, msg.buffer
    {
      && msg.Valid() && msg.version == HTTP_1_1
      && msg.dataLen == if msg.data.Some? then |msg.data.value| else 0
    }

    /** What create() would print now. */
    function Printed(): string
      reads this, msg
    {
      PrintResponse(status, reason, msg.headers, msg.data)
    }

    constructor ()
      ensures Valid() && fresh(msg) && fresh(msg.buffer)
      ensures status == 0 && reason == "" && msg.headers == [] && msg.data == None
    {
      msg := new HttpMessage("");
      status, reason := 0, "";
    }

    method SetStatus(scode: int)
      modifies this
      ensures status == scode && reason == Reason(scode, old(reason))
    {
      status := scode;
      reason := Reason(scode, reason);
    }

    /** The first value of a key stays. */
    method AddHeader(key: string, value: string)
      modifies msg`headers
      ensures msg.headers == Insert(old(msg.headers), key, value)
    {
      msg.AddField(key, value);
    }

    /** setData; None stands for NULL. */
    method SetData(bytes: Option<string>)
      requires Valid()
      modifies msg`data, msg`dataLen
      ensures Valid() && msg.data == bytes
    {
      msg.data := bytes;
      msg.dataLen := if bytes.Some? then |bytes.value| else 0;
    }

    method Create() returns (bytes: string)
      requires Valid() && |Printed()| <= INT_MAX
      modifies msg.buffer
      ensures Valid() && bytes == Printed() && bytes != ""
    {
      var sline := msg.version + " " + Decimal(status) + " " + reason;
      assert sline == StatusLine(status, reason);
      bytes := msg.Print(sline);
    }
  }
}
