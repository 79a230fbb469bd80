# webserv: request parser, configuration reader and event loop, verified

webserv is a small HTTP/1.1 server in C++ around one kqueue loop. This project models the parts
of it that carry state from one event to the next and proves what they do:

* **The incremental request parser** (`ByteBuffer`, `HTTPMessage`, `HTTPRequest`). Bytes arrive
  in arbitrary segments; `parse()` is called again after each one and picks up where it stopped,
  in a state machine with a second one for chunked bodies inside it. The classes
  (`ByteBuffer.dfy`, `HttpMessage.dfy`, `HttpRequest.dfy`) update their fields in loops as the
  program does, 32-bit cursors included, and are proved to compute the functions of
  `RequestSpec.dfy`. About these functions: the law that cuts between segments are invisible, with
  its exact condition on the state (`Segmentation.dfy`) and on the bytes (`ChunkBytes.dfy`); decoding
  of every chunked body under every segmentation (`Chunked.dfy`); the exact set of request lines
  (`StartLine.dfy`); the exact end of the header section (`HeaderEnd.dfy`); the exact set of heads and
  of complete requests (`Head.dfy`, `ChunkBytes.dfy`); printing and reading back (`RoundTrip.dfy`); and
  the inputs on which the program as written fails (`Limits.dfy`).
* **The configuration reader** (`Config`, `ServerConfig`). `ConfigSpec.dfy` has a big-step semantics
  of directive trees and the parser over tokens, `ConfigText.dfy` the tokens of a text and the
  round trip, `Inheritance.dfy` what a location takes over from its parent, `ConfigLaws.dfy` what every
  setting ends up as, told from the printed words, `TokenLaws.dfy` which texts are refused, and
  `ConfigReader.dfy` the classes with the shared iterator.
* **The outgoing side and the loop** (`SendQueueItem`, `Client`, `Server`). `ServerSpec.dfy` says
  what one kernel event does to all connections, `ServerLaws.dfy` exactly what it sends and closes,
  `Answers.dfy` what the answers are on their bytes, `ServerRuns.dfy` what holds in every run, and `Client.dfy` and `Server.dfy` are the classes, down to the handlers; `Server.Run` is proved
  to produce a run of that step machine, so all statements about runs hold of the class.
* **Helpers**: `Libft.dfy` (decimal conversions in machine arithmetic), `Numerals.dfy` (numerals by
  position, independent of that arithmetic), `Cgi.dfy` (the scan over the
  output of a CGI program), `HttpResponse.dfy`, and `Text.dfy`, `Fields.dfy`, `CLib.dfy` for
  searching, the header map and the C library.

Bytes are modelled as `char`: the program compares them with ASCII constants only. What the kernel,
the clock, the file system and CGI programs do comes in as event contents and as a `World`
for each request. `Phase.Spinning` is no value of the program: it stands for its endless loop.

Where the code and the comments or RFC 9112 differ, the model follows the code; `Limits.dfy` and
`ChunkBytes.dfy` state the difference and its exact condition:

* A call of `parse()` may stop with the cursor inside the buffer in just four cases: a blank
  line before the request line, a blank line where a chunk size is due, a CR without LF behind chunk
  data, anything but CR behind the last chunk. Cuts between segments are invisible exactly on
  the streams that do not begin with a blank line and whose chunked body, taken apart into whole
  chunks and a rest, has no such rest.
* A trailer field (section 7.1.2 of RFC 9112) is not read: the request never ends.
* The digit test on Content-Length is inverted, so each decimal length is refused with 400.
* A chunk size from 2^31 up to 2^32 - 1 is read as negative, and with a byte behind its line the loop
  runs forever.
* An item flagged for disconnection closes the connection with its first write, so it arrives whole
  only if at most 1300 bytes of it are left.

## Model

| member | source | states |
|---|---|---|
| ChunkBytes.StreamLaw | src/HTTPRequest.cpp:144-181 | The segmentation law on bytes, for every stream: all cuts are invisible to whatever follows if and only if the stream neither begins with CRLF nor has a chunked body that is whole chunks and then a blank size line, a last chunk with anything but CR behind it, or chunk data with a CR that LF does not follow |
| ChunkBytes.ChunkedLaw | src/HTTPMessage.cpp:220-304 | The same for one chunked request: behind a head that announces chunks the bytes of the body alone decide whether cuts are invisible |
| ChunkBytes.ChunkedVerdict | src/HTTPMessage.cpp:236-304 | Behind such a head, for any bytes at all: complete exactly when they are whole chunks, a last chunk and a blank line first; in the endless loop exactly when whole chunks, a negative size line and one more byte; stalled exactly on the three rests above |
| ChunkBytes.LooseDecoded | src/HTTPMessage.cpp:268-304 | A complete body is decoded to the data of its chunks, for every size line that strtol accepts, and what follows stays |
| ChunkBytes.CompleteOnBytes | src/HTTPRequest.cpp:163-181 | Exactly which streams make a complete request: a request line, header lines and a blank line, and behind them, for POST and PUT, a body as above if the lines give Transfer-Encoding chunked, or anything if they give a non-empty Content-Length without digits |
| ChunkBytes.HeadDecides | src/HTTPMessage.cpp:158-184 | Behind a head: complete exactly so; 400 exactly for POST and PUT with neither framing; and with a Content-Length without digits the body is empty and what follows stays |
| ChunkBytes.NoFraming | src/HTTPMessage.cpp:178-182 | A POST or PUT whose lines give no Transfer-Encoding and no Content-Length, in either case of letters, gets 400 |
| Heads.HeaderValueOnLines | src/HTTPMessage.cpp:340-361 | The value of a header is what the first line with its name gives, or else the first with its name in small letters, or nothing |
| Heads.HeaderLineShape | src/HTTPMessage.cpp:138-148 | A line is a header line if and only if it is a non-empty key without colon, a colon, spaces and a value |
| Heads.LookupOnLines | src/HTTPMessage.cpp:306-331 | For each key the map finds exactly what the first line with that key gives |
| StartLines.MethodIdExact | src/HTTPRequest.cpp:32-47 | The five method names have the numbers 0 to 4, and any other word of capital letters has none |
| StartLines.RefusedLine | src/HTTPRequest.cpp:81-98 | A refused line sets the method exactly when its first word is of capital letters |
| Chunked.HeadParses | src/HTTPMessage.cpp:158-161 | The parser opens a chunked body exactly behind a POST or PUT request line and header lines whose Transfer-Encoding value is chunked, and a blank line |
| ChunkBytes.SpinsOnBytes | src/HTTPMessage.cpp:272-302 | The call never returns exactly on the streams with such a head, whole chunks, a negative size line and one more byte |
| Heads.HeadRead | src/HTTPRequest.cpp:144-168 | Any request line and any header lines are read as their method, target and the map of their lines in order |
| Heads.HeadFound | src/HTTPRequest.cpp:144-168 | A head that was read to its end consists of a request line, header lines and a blank line, with the rest of the stream behind them |
| Segmentation.SegmentationLaw | src/HTTPRequest.cpp:163-181 | For every parser state at rest and every stream: all ways of cutting the stream are invisible to whatever follows, if and only if the one-shot call on the stream does not stall; ChunkBytes.StreamLaw has the condition on the bytes |
| Segmentation.DeliverIsOneShot | src/HTTPRequest.cpp:163-181 | Feeding segments one by one with a call after each gives the very state of one call on their concatenation (status, method, URI parts, headers, body, buffer), for streams that are accepted, refused or incomplete, unless that call stalls |
| Segmentation.BodilessLaw | src/HTTPRequest.cpp:144-181 | For streams without a body the condition is on the bytes: every cut is invisible if and only if the stream does not begin with CRLF |
| Segmentation.BodilessSegmentation | src/HTTPRequest.cpp:144-181 | A request without a body, accepted or refused with 400, is read the same under every segmentation |
| Segmentation.SegmentationExact | src/HTTPRequest.cpp:163-181 | One cut behind the bytes at hand is invisible for all continuations if and only if the call stops with cursor 0 or the request is over |
| Segmentation.NotCalmIsStall | src/HTTPMessage.cpp:220-304 | Every call that stops with the cursor elsewhere ends in one of the four named stalls, with the cursor at 2, 1 or 2^32 - 1 |
| Segmentation.StallSource | src/HTTPRequest.cpp:144-181 | A stall needs a leading blank line or a chunked body |
| Segmentation.ParseMore | src/HTTPRequest.cpp:163-181 | A call that came to rest is resumed by the next call as if all bytes had been there; a finished or stalled one never looks at later bytes in the same call |
| Segmentation.PrefixCalm | src/HTTPRequest.cpp:163-181 | A stream that does not stall as a whole stalls on none of its prefixes |
| Segmentation.HeaderLinesMore | src/HTTPMessage.cpp:133-156 | The header loop resumes: stopping in the middle and going on equals one pass |
| Segmentation.ChunkLoopMore | src/HTTPMessage.cpp:236-304 | The chunk loop resumes from wherever a segment ended, with the counters it left |
| Chunked.ChunkedDelivery | src/HTTPMessage.cpp:236-304 | Any chunked body of RFC 9112 section 7.1 (sizes below 2^31, extensions allowed), cut in any way: after each segment tempBody is exactly the data bytes so far, chunked_status, chunk_size and chunkBodyRead_size are functions of the number of bytes, and the cursor is 0; COMPLETE comes exactly with the segment that holds the last byte, with data equal to the concatenated chunk data, dataLen its length, and what follows left in the buffer |
| Chunked.DecodeWhole | src/HTTPMessage.cpp:268-304 | One call on a whole encoded body appends exactly its data and stops behind it |
| Chunked.DecodePrefix | src/HTTPMessage.cpp:236-304 | On every proper prefix of an encoded body the call waits in CHUNK, and tempBody is a function of the bytes consumed |
| Chunked.DataInPrefix | src/HTTPMessage.cpp:250-252 | What has arrived of the data is at any time a prefix of all of it |
| Chunked.SizeLineValue | src/HTTPMessage.cpp:276-282 | The number read from a size line with extension is the value of its hexadecimal digits, by their places among 0-9 and a-f or A-F, if and only if that is below 2^31; up to 2^32 - 1 it is negative |
| Numerals.StrtolReads | src/HTTPMessage.cpp:279-282 | strtol with base 16, exactly: white space, a sign, "0x" or nothing, and the digits by their place, cut off at the limits of long |
| Numerals.StrtolReadsNothing | src/HTTPMessage.cpp:279-282 | And 0 where no digit stands |
| Numerals.PlaceIs | src/HTTPMessage.cpp:279-282 | The arithmetic on a digit character finds its place among the digits, in either case |
| Numerals.StoiReads | src/libft.cpp:24-47 | stoi, exactly: white space, a sign and decimal digits by their place, modulo 2^64 |
| Numerals.DecimalIs | src/libft.cpp:70-92 | The decimal notation that is printed has decimal digits with the value of the number, and no zero in front |
| StartLines.StartLineExact | src/HTTPRequest.cpp:81-161 | A line is accepted if and only if it is an upper-case word, one space, a target that begins with "/" without a dotted first directory, one space and HTTP/1.1 |
| StartLines.RequestLineAccepted | src/HTTPRequest.cpp:81-158 | An accepted line sets the method number, the version and the two parts of the target, and leaves exactly the bytes behind it in the buffer |
| StartLines.TargetStored | src/HTTPRequest.cpp:100-142 | An accepted target is config_dir followed by requestUri, cut at its second slash, or is kept whole behind "/" when it is a dotted file in the root |
| HeaderEnds.HeaderEndExact | src/HTTPMessage.cpp:64-156 | PREBODY exactly when a blank line stands in the buffer with only good lines before it, with the buffer cut right behind it; 400 exactly when a complete bad line comes before any blank line; otherwise HEADERS with the cursor at 0 and the open line kept |
| RoundTrips.RequestRoundTrip | src/HTTPRequest.cpp:56-79 | A printed GET, HEAD or DELETE request with an accepted target and any well-formed header map, fed in any segmentation, is COMPLETE with the same method, target, version and headers and the appended data in the buffer |
| RoundTrips.ChunkedRequestRoundTrip | src/HTTPRequest.cpp:144-181 | A printed POST or PUT request whose headers say chunked, with any encoded body behind it, fed in any segmentation, is COMPLETE with the same method, target and headers, the decoded data and its length, and what follows in the buffer |
| RoundTrips.HeadersRoundTrip | src/HTTPMessage.cpp:53-62 | Reading the printed headers gives exactly the map, and the bytes behind them are intact |
| RoundTrips.FirstValueStays | src/HTTPMessage.cpp:328-331 | A value that was read for a key is kept through the rest of the section |
| RoundTrips.ResponseRoundTrip | src/HTTPResponse.cpp:100-118 | A printed response is its status line, and behind it a section that reads back as exactly its headers, and its data |
| Limits.LeadingBlankLine | src/HTTPRequest.cpp:146-160 | A blank line in front: in one piece nothing behind it is read; in its own segment it is skipped, and the request is read as if it were not there, or, while its line is open or refused, with the blank line still in the buffer |
| Limits.CrDropped | src/HTTPMessage.cpp:220-263 | After CR without LF behind chunk data the next call equals the call on the buffer without that CR |
| Limits.TrailerVerdict | src/HTTPMessage.cpp:236-246 | One call on a chunked body up to its last chunk and any bytes behind that: complete if and only if CRLF comes first, else in CHUNK with those bytes in the buffer and the cursor at 0 or at 2^32 - 1 |
| Limits.TrailerLaw | src/HTTPMessage.cpp:236-246 | The same under every segmentation of the request into non-empty segments: with a trailer field it is never complete, within the buffer size that int positions allow |
| Limits.OverflowSpins | src/HTTPMessage.cpp:272-302 | Under every segmentation, a chunk size from 2^31 up to 2^32 - 1 behind any chunks, and one more byte, end in the endless loop |
| Limits.SpinningStream | src/HTTPMessage.cpp:272-302 | A concrete request that does so |
| Limits.LengthRefused | src/HTTPMessage.cpp:158-184 | POST or PUT with any decimal Content-Length and no chunked coding is refused with 400 |
| RequestSpec.ChunkLoopInv | src/HTTPMessage.cpp:236-304 | At every return the chunk fields satisfy the invariant: 0 <= chunkBodyRead_size <= chunk_size inside a chunk, no data set before COMPLETE, dataLen the length of tempBody |
| RequestSpec.HeaderLinesInv | src/HTTPMessage.cpp:133-156 | The header section touches no chunk field, and leaves the cursor at 0 unless it refuses |
| Requests.HttpRequest.Parse | src/HTTPRequest.cpp:163-181 | The imperative parser computes the specification of one call from every valid state, keeps the invariant, and loses no byte: what was erased plus the buffer is all that was fed |
| Requests.ReceiveAll | src/Client.cpp:18-24 | Segments given to a request one after the other, with a call after each, make the state that the laws speak of, and what was erased plus the buffer is their concatenation |
| Requests.HttpRequest.ParseStartLine | src/HTTPRequest.cpp:144-161 | The start line stage, in place, equals its specification with its partial updates on refusal |
| Requests.HttpRequest.CheckMethod | src/HTTPRequest.cpp:81-98 | Accepts exactly a non-empty upper-case word, with the -1 of find as the whole line, and sets the method only then |
| Requests.HttpRequest.CheckUri | src/HTTPRequest.cpp:100-142 | Splits the target off and stores it, or refuses and changes neither field |
| Requests.HttpRequest.PutString | src/Client.cpp:18-24 | New bytes go behind the buffered ones and change nothing else |
| Requests.HttpRequest.Create | src/HTTPRequest.cpp:56-79 | NULL for an unknown method; otherwise request line, sorted headers, blank line and data |
| Messages.HttpMessage.GetLine | src/HTTPMessage.cpp:64-96 | The text up to the first CRLF at or behind the cursor, "" with the cursor back when there is none |
| Messages.HttpMessage.CheckHeaderEnd | src/HTTPMessage.cpp:121-131 | True exactly when CRLF stands before the cursor, and the cursor is unchanged: at 0 it wraps below 0 and back, reading zeros behind the buffer |
| Messages.HttpMessage.ParseHeaders | src/HTTPMessage.cpp:133-156 | Computes the header section in place, asks for at most one line per byte it consumed plus one, and loses no byte |
| Messages.HttpMessage.ParseBodyChunked | src/HTTPMessage.cpp:268-304 | Computes the chunk loop in place, in at most as many iterations as there are buffered bytes plus one, and loses no byte |
| Messages.HttpMessage.ChunkBodyProcess | src/HTTPMessage.cpp:236-266 | A round that does not return takes at least a byte off the buffer and leaves the result of the loop the same |
| Messages.HttpMessage.CheckEndChunkBody | src/HTTPMessage.cpp:220-234 | Takes a CRLF at the cursor with all before it, or leaves the buffer alone with the cursor behind a lone CR |
| Messages.HttpMessage.MoveData | src/HTTPMessage.cpp:250-253 | Moves what is there of the chunk, and no more, from the buffer to tempBody |
| Messages.HttpMessage.ReadChunkSize | src/HTTPMessage.cpp:275-285 | Reads a size line, or stops when no complete non-empty line is there |
| Messages.HttpMessage.CheckChunkedBody | src/HTTPMessage.cpp:158-184 | CHUNK, BODY or 400 from the two framing headers, the inverted digit test included |
| Messages.HttpMessage.ParseBodyContentLen | src/HTTPMessage.cpp:194-218 | On a length without digits, the only one that gets here, the body is empty and complete |
| Messages.HttpMessage.PutHeaders | src/HTTPMessage.cpp:53-62 | Appends every entry in map order and the blank line |
| Fields.LessExact | src/HTTPMessage.cpp:53-62 | The order of the map: a prefix comes first, and else the first character that differs decides |
| Fields.InsertLookup | src/HTTPMessage.cpp:328-331 | std::map::insert keeps the value that is there and adds one that is not, for every key |
| Buffers.ByteBuffer.Erase | src/ByteBuffer.cpp:97-108 | Removes the range, moves both cursors back modulo 2^32, and a range at the front is remembered in order |
| Buffers.ByteBuffer.GetDataToString | src/ByteBuffer.cpp:131-145 | Copies from the front of the buffer wherever the cursor is, at most what is there |
| Buffers.ByteBuffer.PutString | src/ByteBuffer.cpp:226-233 | Appends at the write cursor, which stays at the end |
| Buffers.ByteBuffer.PutBytes | src/ByteBuffer.cpp:235-239 | Byte by byte append equals the one-copy append |
| Buffers.ByteBuffer.Get | src/ByteBuffer.hpp:20-34 | Reads 0 behind the end and moves the cursor modulo 2^32 |
| CLib.BaseZeroIsHex | src/HTTPMessage.cpp:279-282 | The two branches for size lines with and without "0x" read the same number |
| Libft.DecimalRoundTrip | src/libft.cpp:24-92 | stoi of the decimal notation of n is n modulo 2^64 |
| Libft.Itos | src/libft.cpp:70-92 | Storing digits from the end, with the remainder of a negative number times (size_t)-1, gives the decimal notation of every int above the least |
| Libft.Stoi | src/libft.cpp:24-47 | White space, sign and digits modulo 2^64, in size_t arithmetic |
| Libft.FtNumlen | src/libft.cpp:49-68 | The number of characters of the decimal notation |
| ConfigText.ConfigRoundTrip | src/Config.cpp:25-93 | Reading the text of any printed tree of servers gives its big-step meaning, errors included, with blanks before, between and behind the words and blank and comment lines in between, chosen for each line |
| ConfigSpec.ParsePrinted | src/ServerConfig.cpp:30-191 | The token parser computes the meaning on every printed tree |
| ConfigSpec.ParseAll | src/ServerConfig.cpp:30-144 | A block of any nesting is read as its meaning, and the cursor stops on its own "}" |
| ConfigText.ScanServers | src/Config.cpp:46-93 | The tokens of a printed tree are the tokens of the tree, with all braces closed |
| ConfigLaws.LoadLaw | src/Config.cpp:25-44 | Loading a printed file fails exactly when some "return" in it reads as 0; else the k-th server has number k and, from nothing, the settings that its directives say |
| ConfigLaws.SettingsLaw | src/ServerConfig.cpp:41-124 | For each setting of one value the last directive printed with its name decides ("on" and "off" for autoindex), index, server_name and methods grow by all their names in order, each location adds one, and nothing else changes |
| ConfigLaws.LocationLaw | src/ServerConfig.cpp:126-144 | A location has, of each setting, what the directives before it in its parent and its own say, read as one list; its uri; and all locations before it in front of its own |
| ConfigLaws.ErrorsLaw | src/ServerConfig.cpp:77-82 | A block is an error if and only if a "return" in it, at any depth, has a code that reads as 0 |
| ConfigLaws.Malformed | src/ServerConfig.cpp:30-39 | A server or a location without its brace is an exception, and a list that ends too early is read past |
| TokenLaws.TextLaw | src/Config.cpp:46-93 | A text is refused exactly when a closing brace has no opening one before it or one of six directives stands on a line that does not end in ";"; any other gives the tokens of its words |
| Inheritance.LocationSnapshot | src/ServerConfig.cpp:126-144 | A location is its own block applied to a copy of the parent at that point, earlier siblings included; later directives do not change it, and its settings are those of one flat list of the directives before it and its own |
| Inheritance.PlainMeaning | src/ServerConfig.cpp:126-144 | Nested locations do not change any other setting of the block around them |
| ConfigReader.Config.ParseConfig | src/Config.cpp:25-44 | The class computes the same: servers, an exception, or a read past the tokens |
| ConfigReader.Config.Tokenize | src/Config.cpp:46-93 | The nested loops with the brace stack append exactly the tokens of the text, or fail exactly when they have none |
| ConfigReader.ServerConfig.GetDirective | src/ServerConfig.cpp:41-70 | Dispatch on the keyword: new settings and cursor, exception or overrun as specified |
| ConfigReader.ServerConfig.LoopLocation | src/ServerConfig.cpp:133-144 | Reads the block into the copy and appends that copy to the locations of the parent |
| ConfigReader.ServerConfig.ParseMethod | src/ServerConfig.cpp:154-174 | Appends the names up to the first that ends without a comma |
| Cgi.CgiRoundTrip | src/Server.cpp:465-510 | From printed CGI output the scan recovers the header lines in order and exactly the body |
| Cgi.ParseCgi | src/Server.cpp:465-510 | The loops of the scan compute its specification, and say where the program would read out of bounds |
| Cgi.InsertAllLookup | src/Server.cpp:491 | Among the headers added to the response the first value of each key wins |
| ServerRuns.RunInv | src/Server.cpp:163-279 | In every state of every run, for every connection: wire bytes followed by the unsent bytes of the queue are the answers in order; a closed connection saw a prefix; the request in progress is what its segments deliver; each finished request has exactly one answer; the listen value is that of the start |
| ServerRuns.RunInOrder | src/Server.cpp:204-237 | In every run, for each i, the i-th answer on a connection was given in an event of the run that found the first i - 1 answers there and ended the i-th request, and it is byte for byte the answer of the server active then in the world of that event |
| Answers.RefusedAnswer | src/Server.cpp:222-228 | A refused request gets "HTTP/1.1 400 Bad Request" from the active server, with that reason as text, none for HEAD |
| Answers.DisallowedAnswer | src/Server.cpp:333-338 | A method the location does not allow, or any word that is no method, gets "HTTP/1.1 405 Method Not Allowed" |
| Answers.RedirectAnswer | src/Server.cpp:343-365 | A redirecting location answers GET with 301 or 302 and the new place, or 400 for any other code, and any other method with 405 |
| Answers.GetAnswer | src/Server.cpp:385-442 | GET and HEAD: the file, or the output of the CGI program, with 200 and its type and length, 404 for a directory or without a resource, no body for HEAD, 413 above the limit of the location, closing exactly when the request says so |
| Answers.PostAnswer | src/Server.cpp:516-583 | POST: 200 with the data of the request or of the CGI program when there is a resource, else 201 with its place, 501 when no file can be made, 413 above the limit |
| Answers.PutAnswer | src/Server.cpp:585-635 | PUT: 204 or 201 with the place, or 501 |
| Answers.DeleteAnswer | src/Server.cpp:637-678 | DELETE: 200 with the page that says so, or 404 |
| Answers.PageBytes | src/Server.cpp:680-749 | A page of plain text to the last character: status line, the four headers in order, blank line, text |
| Answers.ResponseIs | src/Server.cpp:722-749 | Every response is its status line, its headers in map order with the first value given to each key and those that all get behind its own, a blank line and the body |
| Answers.SomePlace | src/Server.cpp:310-332 | Every complete request has a server and a place that answer it: the first listed server with the active listen value and the host among its names, else the active one; the first location with config_dir as its uri, else the first of all with the target put together again |
| Answers.PlaceIs | src/Server.cpp:282-294 | Which location that is, and the request URI below it |
| ServerLaws.SendExact | src/Server.cpp:250-276 | A write event, exactly: as many bytes as are left, as the kernel takes, as there is room for (64 when it says 0) and as 1300 allow; the connection is closed if and only if the item is flagged or nothing was sent, and then nothing changed |
| ServerLaws.ClosesExactly | src/Server.cpp:185-198 | Which events close their connection: the end of the stream, a read that gives nothing, and such a write; no others |
| ServerLaws.ClosedLast | src/Server.cpp:112-130 | The closed connection leaves the map and is the last of the closed ones, after an error in sending just as it was |
| ServerLaws.ArrivesExactly | src/Server.cpp:132-151 | A new connection has nothing yet, and an event on an unknown descriptor does nothing |
| ServerLaws.SegmentIs | src/Client.cpp:18-24 | What a read event hands to the parser: the bytes before the first NUL, and nothing when nothing came |
| ServerLaws.HaltsExactly | src/Server.cpp:204-237 | The server goes on no more exactly when a buffer or an answer would exceed 2^31 - 1 bytes or the parser loops for ever |
| ServerRuns.OneAnswer | src/Server.cpp:204-237 | A read event enqueues one item exactly when the request came to COMPLETE or 400, on that connection, and drops the request; the item has the bytes of the chosen server's answer and its close flag |
| ServerRuns.OthersUntouched | src/Server.cpp:163-202 | An event changes no connection but its own, in parser state, queue or anything else |
| ServerRuns.StepInv | src/Server.cpp:163-279 | Every event keeps the conservation invariant of all connections |
| ServerRuns.ChunkedExchange | src/Server.cpp:204-237 | A chunked request that arrives over any number of read events is over exactly with the event of its last byte, with all its data |
| ServerRuns.Drains | src/Server.cpp:239-279 | Without flagged items at most as many successful sends as unsent bytes empty the queue, close nothing and put every answer on the wire |
| ServerRuns.SendDrains | src/Server.cpp:239-279 | A successful send shortens what is unsent by just what went out, never moves an offset past its size, and closes only behind a flagged item |
| ServerRuns.FlaggedItem | src/Server.cpp:250-276 | A flagged item closes with its first send whatever was sent, and can arrive whole if and only if at most 1300 bytes are left |
| ServerSpec.SendInv | src/Server.cpp:239-279 | Partial, full and failed sends keep wire plus unsent equal to the answers |
| ServerSpec.EnqueueInv | src/Client.cpp:38-41 | A new item extends the answers at their end only |
| ServerSpec.SelectFirst | src/Server.cpp:314-332 | The first listed server with the active listen value that names the host is chosen, and only without one the active server stays |
| ServerSpec.ChosenServes | src/Server.cpp:312-332 | The chosen server has the active listen value, so the value never changes |
| ServerSpec.LocationIndex | src/Server.cpp:282-294 | The first location whose uri is config_dir, or none |
| Servers.Server.Run | src/Server.cpp:163-202 | The loop over the events makes a run of the step machine, state by state, and stops early only when the program would not go on |
| Servers.Server.HandleEvent | src/Server.cpp:174-200 | One event is one step on all connections at once; sound and separate connections stay so |
| Servers.Server.ReadClient | src/Server.cpp:204-237 | Receive, parse, answer and delete, with the exact new connection and active server for each result of the parser |
| Servers.Server.WriteClient | src/Server.cpp:239-279 | One write event is the specified send, with disconnection |
| Servers.Server.SendNext | src/Server.cpp:244-276 | Sends from the front item, moves its offset or takes it off the queue, and says whether to close |
| Servers.Server.DisconnectedClient | src/Server.cpp:112-130 | The connection leaves the map, all others stay as they are |
| Servers.Server.AcceptNewClient | src/Server.cpp:132-151 | A new empty connection, or nothing when the map has the descriptor |
| Servers.Server.HandleRequest | src/Server.cpp:310-383 | One item with the exact bytes of the verdict of the chosen server, through host selection, location, allowed methods, redirection and the handlers |
| Servers.Server.SelectHost | src/Server.cpp:312-332 | The nested loops choose the specified server |
| Servers.Server.CheckAllowedMethods | src/Server.cpp:282-308 | Location, rejoined URI and whether the method is allowed |
| Servers.Server.HandleGet | src/Server.cpp:385-442 | GET and HEAD: status, headers, body, close flag, and the 404 and 413 cases |
| Servers.Server.HandlePost | src/Server.cpp:516-583 | POST: the same, with 201, 200 and 501 |
| Servers.Server.HandlePut | src/Server.cpp:585-635 | PUT: the same, with 201, 204 and 501 |
| Servers.Server.HandleDelete | src/Server.cpp:637-678 | DELETE: the same, with 200 and 404 |
| Servers.Server.SendResponse | src/Server.cpp:722-749 | One item with the printed response or the 413 in its place, nested at most once, and isCgi false behind it |
| Servers.Server.SendStatusResponse | src/Server.cpp:680-720 | One item with the error page or the reason phrase as text, without a body for HEAD |
| Clients.Client.RecvRequestData | src/Client.cpp:18-24 | A new request for the first bytes, more bytes for the one there is, cut at the first NUL; the queue is untouched |
| Clients.Client.AddToSendQueue | src/Client.cpp:38-41 | The item goes behind the others |
| Clients.Client.DequeueFromSendQueue | src/Client.cpp:55-64 | The front item goes, if there is one |
| Clients.Client.DeleteRequest | src/Client.cpp:26-36 | The request goes, the queue stays |
| Responses.HttpResponse.Create | src/HTTPResponse.cpp:100-118 | Status line, sorted headers, blank line and data |

## Left out

- Sockets, kqueue, fcntl and the start and stop of the server: events, received bytes, and how many bytes a send takes are arbitrary inputs. A failed accept is an accept of whatever descriptor it returned.
- executeCgi, setEnv, fork, pipes and temporary files: the output of a CGI program is an input of the model. Output on which the scan would read out of bounds is excluded by the hypothesis `Sane`.
- Limits.TrailerLaw: empty segments are excluded, because after some 2^32 calls without new bytes the cursor would come back to the buffer.
- ServerRuns.RunInv: assumes configured servers with at least one location and no empty method name (`Serves`), because the program indexes the locations without a test and an empty name lets an unknown method pass without any answer.
- Servers.Server.Run: takes the events as one sequence; batches of kevent and empty results are not told apart. It halts where a buffer or a printed answer would exceed 2^31 - 1 bytes, and where the parser would loop forever.
- Servers.Server.HandlePost: the file that is written, and its effect on later requests, is not modelled; nor is a resource that vanishes between the two look-ups.
- Servers.Server.HandlePut: the file that is written is not modelled.
- Servers.Server.HandleDelete: the removed file is not modelled, and neither is the exit on a failed removal.
- Servers.Server.SendStatusResponse: the error page is an input; that the reading loop does not end when the file cannot be opened is not modelled.
- Messages.HttpMessage.ParseBodyContentLen: writing the rest of the buffer behind the allocated data (src/HTTPMessage.cpp:211-215) is not modelled.
- Libft.Itos: excludes the least int, whose negation overflows.
- ConfigText.ConfigRoundTrip: values are non-empty words without blanks or newlines that do not begin with "#" or end in ";" and are no brace, and no method ends in a comma; each directive ends in ";" right behind its last word (a ";" of its own would add an empty word), and comments stand on lines of their own. Other text is covered by ConfigReader.Config.ParseConfig alone, which ends in an overrun where the program reads past the tokens.
- ResourceHost, Resource, the MIME table and directory listings: file system calls and constant data; the result of getResource is an input.
- main.cpp with its threads, memory management and logging: objects are garbage-collected, and the copies of the server list that threads share never change after the start.
- HTTPResponse::parse, determineStatusCode, getStrElement, parseBody and the flag isChunked: not reached by the server.
- The accessors of ByteBuffer for wider types, clone, find, replace, equals and insert: not used on the path of a request.
- Inheritance between ByteBuffer, HTTPMessage and its two descendants is modelled as composition with the same fields.
- The text that handlers write to the console.
