# small_rpc: a verified model

small_rpc is a reactor-style RPC framework: one thread per event loop sleeps in `epoll_wait`, reads
connections into growable buffers, lets a list of protocols try the bytes, dispatches a service call
and writes the response back; other threads hand it functions and timers. This project models those
parts in Dafny and proves what the code does for every input, every way of cutting a stream, every
interleaving and every run. Where the code and its intent differ, the model follows the code, a lemma
shows the input that fails, and another lemma gives the exact condition under which the code is right.

## The parts

| part | files |
|---|---|
| bytes, C library searches, decimal and big-endian numbers | `Bytes`, `Decimal`, `BigEndian`, `Protocol` |
| the buffer: byte queue, growth, stable views, two output lanes | `BufferSpec`, `Lanes`, `Buffer` |
| the HTTP codec | `HttpSpec`, `HttpMeaning`, `HttpChunking`, `HttpRoundTrip`, `HttpFailure`, `HttpRequest`, `Http` |
| the simple codec | `SimpleSpec`, `SimpleMeaning`, `SimpleRoundTrip`, `Simple` |
| timers and the loop's wakeup protocol | `Timers` (with time stamps), `EventLoop`, `LoopRounds` |
| the life cycle of server connections | `ServerSpec`, `ServerInv`, `ServerRuns`, `ServerEffects`, `ServerRounds`, `Server` |
| protocol selection and the end-to-end claim | `Selection`, `Connection`, `Outcomes`, `Delivery`, `Exchange`, `EndToEnd` |

Each source class that updates its fields is a Dafny class (`Buffer`, `HttpContext`,
`SimpleContext`, `TimerManager`, `TcpConnection`, `PbServer`) whose methods are proved equal to a
specification function on values; the theorems about chunking, round trips and runs are about those
functions. Concurrency (`EventLoop`) and the life of connections over whole runs (`ServerRuns`) are
step systems: one step per lock section, eventfd access, return of `epoll_wait` or callback.

## How to read the model

* A parser call is a function of the context, the bytes written so far and the read index. The class
  methods are proved to be that function for every context state and every buffer content, so the
  chunking theorems speak about the code's staged, resumable parsers.
* `Status` has two outcomes that C++ does not return: `Threw`, an exception out of `std::stoi`
  (modelled with its white space, sign and trailing text, so no hypothesis on numbers is needed), and
  `Wild`, an access outside the storage. The bytes behind the write index are arbitrary stale bytes.
* `::read`, `::write` and `epoll_wait` are oracles: arguments of methods or choices of a step, with
  the ranges that their documentation promises. The errors of `::read` and `::write` on which the code
  aborts are results too, after which the process is `Down`. Clock readings are arbitrary.
* The end-to-end theorem runs over the write buffers of both sides: packing, growth, `write_fd` call by
  call, the network's cuts, parsing, and clearing for the next round.
* A connection is an object at an address that `delete` frees and `new` may reuse. Any use of an
  object that is gone, any `epoll_ctl` the kernel would refuse and any use of a null context sets
  `fault`; life-cycle safety says that no run sets it.

## Where the code differs from its intent

* **Simple protocol, length test.** `readable() < len` still counts the four bytes of the length word
  (protocols/simple.cpp:48, 71, 162). `SimpleSpec.Intended` waits for length plus four;
  `SimpleSpec.ActualIsIntended` proves that a call of the code agrees with it if and only if no field
  ends inside its last four bytes, `SimpleSpec.ChunkingExactly` that over a whole run every call is right
  if and only if every call meets that guard, and `SimpleRoundTrip.GuardIsNeeded` is a cut that turns a good
  request into an error.
* **HTTP body, cast.** `_parse_body` casts `readable()` to `int` (protocols/http.cpp:170).
  `HttpChunking.ChunkingExactly` proves that all cuts of a stream give one answer if and only if that
  cast does not hide a complete body; `HttpChunking.HarmIsReal` is a stream on which it does.
* **Two lanes.** `write_fd` tries the extra lane after a short write of the data lane
  (net/buffer.cpp:45-51). `Lanes.WireInOrder` proves that the wire is in order if and only if no short
  write is followed by one that sends extra bytes; `Lanes.OutOfOrder` is a run in which one is.
* **Completion test.** The server looks at the data lane only (net/tcpconnection.cpp:31), and
  `write_complete_callback` then clears the buffer. Over the whole run of calls for a response,
  `Lanes.CompletionExactly` proves that the response has been sent whole and in order if and only if no
  call sends extra bytes behind a short data write and the whole payload goes out in a single write of
  the call that finishes the head; `Lanes.PayloadIsLost` is a run in which the rest is never sent.
* **Lengths that end the server.** `std::stoi` throws on a Content-Length that is no `int`
  (protocols/http.cpp:152), and a negative one gives an inverted payload view, out of which
  `BufferView::str` throws (net/pb_server.cpp:176). Nothing between there and `main` catches.
  `HttpFailure.StreamDecides` proves which streams do this, finished or not: by their first non-empty
  Content-Length in front of any malformed line. `Outcomes.ServerEndsExactly` carries this to the server
  at any position of HTTP among the protocols, `Outcomes.OneHeaderEndsTheServer` shows one request of each
  kind, and `Outcomes.OneLineEndsTheServer` a request line and one header line with nothing behind them.
  The runs of the server contain the event as the outcome `Crashed`, after which the process is `Down`.
* **Overruns of the simple protocol.** A field taken too early can reach behind the storage.
  `SimpleSpec.OutsideExactly` proves when a call leaves it, by the lengths in its fields, and
  `Outcomes.SimpleEndsExactly` carries this to the server.
* **Timeout.** The difference of time stamps is cast to `int` (base/timestamp.h:45), and the loop takes
  the heap's top for the earliest timer. `EventLoop.NoOversleep` covers every run with any delays and
  clock readings: while the difference is an `int`, the loop wakes by a timer if and only if the top is
  not later in time than it. `EventLoop.TimeoutExactly` says when the cast does no harm, and
  `EventLoop.RangeIsNeeded` shows a one-second sleep on an overdue timer. `TimeStamps.OrderExactly`
  proves that the stamp of a delay compares as the times do if and only if the delay does not reach back
  into part of an earlier second, and `TimeStamps.NegativeDelayMisorders` shows one that does; without
  negative delays, `EventLoop.NoOversleepInOrder` needs the range of the clock only.
* **Growth.** `_append` doubles the storage once (net/buffer.h:93); `BufferSpec.FitsExactly` says when
  that is enough, and `BufferSpec.GrowthIsShort` is an append for which it is not.
  `EndToEnd.SendableMayNotFit` is a call that the HTTP codec can carry and a new client buffer cannot;
  `EndToEnd.ShortNamesFit` says which calls always fit.
* **Keep-Alive.** tests/test_http_protocol.cpp:58 sends `Keep-alive` and line 68 expects the single
  connection type, while the code compares with `Keep-Alive` byte for byte (protocols/http.cpp:154).
  The model follows the code: `HttpRoundTrip.KeepAliveIsExact`. Likewise CONNECT is never recognised
  (protocols/http.cpp:63, 242): `Selection.ConnectIsUnknown`.

## Model

| member | source | states |
|---|---|---|
| Bytes.FindCrlfOfLine | net/buffer.cpp:14-24 | a line without CRLF that is followed by CRLF ends exactly where the search says, in any window that contains both |
| Bytes.FindCrlfExtends | net/buffer.cpp:14-24 | a line end found in a prefix of the stream stays the first one when more bytes arrive |
| Decimal.ValueOfDec | protocols/http.cpp:187 | the decimal text printed for a length denotes that length |
| Decimal.StoiOfDec | protocols/http.cpp:152 | reading a printed length back gives the length if it fits `int`, and throws otherwise |
| Decimal.StoiOfNumeral | protocols/http.cpp:152 | white space, an optional sign and digits, whatever follows, give the value of the digits if it is an `int`, and throw otherwise |
| Decimal.NumeralOfStoi | protocols/http.cpp:152 | only such texts are read as numbers |
| BigEndian.DecodeOfEncode | net/buffer.h:39-43 | a 32-bit unsigned word printed in network order is read back unchanged |
| BigEndian.DecodeOfEncodeInt | net/buffer.h:33-37 | a 32-bit signed word printed in network order is read back unchanged, negative ones included |
| BufferSpec.ShortAppendFits | net/buffer.h:91-96 | an append no longer than the capacity never copies outside the storage, whatever the indices |
| BufferSpec.FitsExactly | net/buffer.h:91-96 | below 2^31 bytes, an append is safe if and only if the new write index is at most twice the capacity |
| BufferSpec.GrowthIsShort | net/buffer.h:91-96 | nine bytes do not fit an empty buffer of four |
| BufferSpec.GrowsOnlyWhenNeeded | net/buffer.h:91-96 | an append that there is room for leaves the capacity, any other doubles it |
| BufferSpec.ReadRoomExactly | net/buffer.cpp:75-79 | `read_fd` doubles the storage exactly if it is full, and then offers room behind the write index unless the storage is empty |
| BufferSpec.ShortAppendsFit | net/buffer.h:91-96 | any number of pieces no longer than the capacity can be appended one after the other, whatever the indices |
| BufferSpec.AppendAllGrows | net/buffer.h:91-96 | pieces appended one after the other extend the written bytes by exactly themselves in order, and nothing else changes |
| BufferSpec.PackedGrows | net/buffer.h:78-96 | after a packer the data lane has grown by its pieces and the extra lane is the payload |
| BufferSpec.ApplyIsQueue | net/buffer.h:48-96 | append, receive and retrieve act on the readable bytes as enqueue and dequeue; the written part is only extended |
| BufferSpec.RunIsQueue | net/buffer.h:48-96 | over every legal run, what is retrieved followed by what is readable is what was readable followed by what arrived; capacity never shrinks |
| BufferSpec.ViewsAreStable | net/buffer.h:110-129 | a view into the written part keeps its bytes through any run of appends, reads, growth and retrieves, until `clear` |
| Buffers.Buffer.constructor | net/buffer.h:18 | a new buffer is empty, with zeroed storage of the given size |
| Buffers.Buffer.FindCrlf | net/buffer.cpp:14-24 | the offset of the first CRLF that lies inside the given number of readable bytes, or -1 exactly if there is none |
| Buffers.Buffer.Append | net/buffer.h:92-96 | the readable bytes grow by exactly the appended ones; nothing before them changes; capacity does not shrink |
| Buffers.Buffer.AppendInt32 | net/buffer.h:67-70 | the four appended bytes are the big-endian encoding of the signed number |
| Buffers.Buffer.AppendUint32 | net/buffer.h:72-75 | the four appended bytes are the big-endian encoding of the unsigned number |
| Buffers.Buffer.AppendExtra | net/buffer.h:78-84 | the extra lane is replaced, every other field including the extra index stays |
| Buffers.Buffer.Retrieve | net/buffer.h:50 | only the read index moves |
| Buffers.Buffer.Clear | net/buffer.h:87-89 | the three indices are reset, storage and extra data stay |
| Buffers.Buffer.ReadFd | net/buffer.cpp:75-92 | the received bytes follow those already written, after a doubling exactly if the storage was full; on would-block only that doubling remains; any other error aborts |
| Buffers.Buffer.WriteFd | net/buffer.cpp:31-68 | the imperative call leaves the buffer, and aborts or returns the number, of the two-lane specification for every pair of write results |
| Lanes.IndicesMove | net/buffer.cpp:31-68 | the two indices move by exactly the numbers of bytes that the writes made took, and nothing else changes |
| Lanes.ReturnMeaning | net/buffer.cpp:26-30 | the result is the number of bytes on the wire if every write made reported one, -1 or 0 for would-block or a broken pipe, and an abort for any other error |
| Lanes.LanesArePrefixes | net/buffer.cpp:31-68 | over any run of `write_fd` the bytes that the writes took from each lane are consecutive bytes of that lane: none lost, repeated or reordered |
| Lanes.WireInOrder | net/buffer.cpp:31-68 | over any run, the wire is a prefix of data followed by extra if and only if in no call a short write of data is followed by a write that sends extra bytes |
| Lanes.BlockingKeepsOrder | net/buffer.cpp:31-68 | in particular the wire is in order when a short data write is always followed by would-block in the same call |
| Lanes.DrainedWire | net/pb_client.cpp:166-168 | when the synchronous drain loop exits after a run in order, the wire is exactly the data lane followed by the extra lane |
| Lanes.ExtraMovesLast | net/tcpconnection.cpp:29-35 | over the server's calls for a response, with data sent first, the extra lane is empty at the end if and only if its whole rest goes out in the second write of the last call |
| Lanes.CompletionExactly | net/tcpconnection.cpp:29-35 | over the server's calls up to the completion test, the wire is the whole response in order if and only if no short data write is followed by extra bytes and the payload goes out in a single write of the call that finishes the head |
| Lanes.PayloadIsLost | net/pb_server.cpp:136-144 | a run that passes the completion test with a payload byte unsent |
| Lanes.ClearedMessage | net/buffer.h:87-89 | after `clear` the data lane is empty and the old payload is ready to be sent again |
| Lanes.OutOfOrder | net/buffer.cpp:45-51 | a short data write followed by a successful extra write puts an extra byte before a data byte |
| HttpSpec.HeadersKeep | protocols/http.cpp:127-166 | header lines change the header map, the body size and the connection type and no other part of the context |
| HttpMeaning.PathMeaning | protocols/http.cpp:81-87 | the two names are found exactly if the url has a second slash, and joining them with slashes gives the url back, with no slash in the service |
| HttpMeaning.RequestLineSound | protocols/http.cpp:50-100 | an accepted request line is METHOD, blank, url, blank, version with no further blank, the stored method and names are those of the line, and the three views lie exactly on url, version and line |
| HttpMeaning.RequestLineComplete | protocols/http.cpp:50-100 | every line of that shape is accepted with the method and names that the shape determines |
| HttpMeaning.MatchesMethod | protocols/http.cpp:62-70 | a line that starts with a method and a blank is matched to that method and no other |
| HttpMeaning.MethodsAreTheEnum | protocols/protocol.proto:38-48 | a line that starts with a method of the enumeration is matched to its number, the last one to none |
| HttpMeaning.LineSearch | protocols/http.cpp:51-59 | a line end is found if and only if it is the first and lies within 65536 bytes; that many bytes without one are an error, and fewer a wait |
| HttpMeaning.TrimExactly | protocols/http.cpp:121-124 | trimming leaves exactly the middle between blanks that is empty or has no blank at either end |
| HttpMeaning.SplitExactly | protocols/http.cpp:139-149 | a line is malformed if and only if it has no colon behind a first character; otherwise it is split at its first colon and both parts are trimmed |
| HttpMeaning.HeadersOfLines | protocols/http.cpp:127-166 | a block of lines is parsed as the fold of its lines in order, and exactly the block is consumed |
| HttpMeaning.LinesOfHeaders | protocols/http.cpp:127-166 | whatever is accepted as headers is such a block, ended by its first empty line |
| HttpMeaning.FoldHolds | protocols/http.cpp:146-158 | folding lines keeps the description of the context by first non-empty values |
| HttpMeaning.HeadersMeaning | protocols/http.cpp:127-166 | after an accepted header block the map gives each name its first non-empty value, and Content-Length and Connection fix body size and connection type |
| HttpChunking.FindLineExtends | protocols/http.cpp:129-137 | a found line, or the verdict that a line is too long, is not changed by further bytes |
| HttpChunking.HeadersExtend | protocols/http.cpp:127-166 | header parsing interrupted for lack of data continues to the result of parsing without interruption |
| HttpChunking.ParseResumes | protocols/http.cpp:28-47 | a call that ran out of data leaves a state from which the next call does what one call on all bytes would have done, without any condition |
| HttpChunking.VerdictIsFinal | protocols/http.cpp:28-47 | any other answer is not changed by further bytes, if the cast is harmless on the whole stream |
| HttpChunking.SuccessIsHarmless | protocols/http.cpp:169-175 | the cast is harmless on every stream that is accepted as a whole |
| HttpChunking.ChunkingIndependence | protocols/http.cpp:28-47 | however a stream is cut, status, whole context and read index are those of one call on the whole stream, for requests and responses |
| HttpChunking.ChunkingExactly | protocols/http.cpp:169-175 | all cuts of a stream give one answer if and only if the cast of the readable size does not hide a complete body |
| HttpChunking.ShortIsHarmless | protocols/http.cpp:170 | the cast is harmless on every stream shorter than 2^31 bytes |
| HttpChunking.HarmfulCast | protocols/http.cpp:169-175 | on any other stream the cut at the end of the body gives Success where the whole stream gives NoEnoughData |
| HttpChunking.HarmIsReal | protocols/http.cpp:170 | a response with an empty body followed by 2^31 bytes is such a stream |
| HttpRoundTrip.PackedBlock | protocols/http.cpp:200-209 | the printed headers are a well-formed block of three lines |
| HttpRoundTrip.PackedParse | protocols/http.cpp:194-212 | a packable request is recovered, or throws if its payload is longer than an `int` can say |
| HttpRoundTrip.RecoveredNames | protocols/http.cpp:50-100 | a recovered request has no slash in the service, no blank or CRLF in a name, and a line within the limit |
| HttpRoundTrip.RequestRoundTrip | protocols/http.cpp:194-212 | parsing a packed request gives back service, method, payload and connection type (Pool as Single) if and only if the names and lengths meet a condition the caller can check |
| HttpRoundTrip.ResponseRoundTrip | protocols/http.cpp:178-191 | parsing a packed response gives back connection type and payload if and only if the payload length fits `int`; otherwise it throws |
| HttpRoundTrip.KeepAliveIsExact | protocols/http.cpp:154-156 | `Connection: Keep-alive` is stored and leaves the connection short, `Keep-Alive` makes it single |
| HttpRoundTrip.HeaderText | protocols/http.cpp:200-209 | the three header lines, letter by letter |
| HttpRoundTrip.PackedText | protocols/http.cpp:178-212 | the whole text of a request and of a response |
| HttpFailure.FoldEnds | protocols/http.cpp:127-166 | a header block throws, fails or is accepted according to its first non-empty Content-Length and its first malformed line, whichever comes first |
| HttpFailure.LengthDecides | protocols/http.cpp:150-153 | for every accepted request line, every finished header block and every body, the server throws if and only if that length is no `int`, or is negative in a block without malformed lines |
| HttpFailure.FrontIsFront | protocols/http.cpp:127-166 | every stream is a finished header block and a body, or lines and a rest without a line end in reach |
| HttpFailure.HeadersOfOpen | protocols/http.cpp:127-166 | an unfinished header block is parsed as far as the fold of its lines goes |
| HttpFailure.StreamDecides | protocols/http.cpp:28-166 | for every stream, finished or not, the server throws if and only if the first line is accepted and the lines so far, up to the first malformed one, give a length that is no `int`, or the block is finished and well formed and gives a negative one |
| HttpFailure.LengthsAreFatal | protocols/http.cpp:152 | `x` and `-1` are such lengths |
| HttpRequest.RequestAccepted | protocols/http.cpp:28-47 | every well-formed request, with any bytes behind it, is accepted, and method, names, views, header map, body size, connection type and payload view are those that it says |
| HttpRequest.RequestMeaning | protocols/http.cpp:28-47 | whatever is accepted is such a request |
| HttpRequest.AcceptedExactly | protocols/http.cpp:28-175 | a stream is accepted if and only if it is a well-formed request |
| Http.HttpContext.FindMethod | protocols/http.cpp:62-70 | the method loop finds the method of the line by byte comparisons that stop inside the received bytes |
| Http.HttpContext.ParseTarget | protocols/http.cpp:72-99 | the searches over buffer indices compute the target of the line |
| Http.HttpContext.StoreTarget | protocols/http.cpp:79-99 | url, names, version and request line are stored as the specification says; the search for the second slash, one byte too far, finds nothing wrong |
| Http.HttpContext.ParseRequestLine | protocols/http.cpp:50-100 | the first stage of a request is its specification, for every buffer content and context |
| Http.HttpContext.ParseLine | protocols/http.cpp:61-99 | behind the search for its end, a request line has the specified effect |
| Http.HttpContext.ParseResponseLine | protocols/http.cpp:103-118 | the first stage of a response is its specification |
| Http.HttpContext.ParseHeaderLine | protocols/http.cpp:139-149 | one header line is split and trimmed and has the specified effect, or is rejected |
| Http.HttpContext.StoreHeader | protocols/http.cpp:150-158 | a header is stored unless a part is empty or the name is known; a bad length throws |
| Http.HttpContext.ParseHeaders | protocols/http.cpp:127-166 | the header loop is its specification, terminates, and reads received bytes only |
| Http.HttpContext.ParseBody | protocols/http.cpp:169-175 | the payload view is set exactly if the cast readable size reaches the body size; nothing is retrieved |
| Http.HttpContext.ParseMsg | protocols/http.cpp:28-47 | the staged parser is the specification for every context and buffer content, keeps the read index within the written bytes and terminates |
| Http.HttpContext.PackHeaders | protocols/http.cpp:200-210 | exactly the three header lines are appended, and the payload becomes the extra lane |
| Http.HttpContext.PackRequest | protocols/http.cpp:194-212 | whenever the pieces fit one after the other, exactly the request head is appended to the data lane, and the payload becomes the extra lane |
| Http.HttpContext.PackResponse | protocols/http.cpp:178-191 | whenever the pieces fit, exactly the response head is appended to the data lane, and the payload becomes the extra lane |
| Http.RequestPiecesAreHead | protocols/http.cpp:195-209 | what `pack_request` appends, piece by piece, is the request head |
| Http.ResponsePiecesAreHead | protocols/http.cpp:179-188 | what `pack_response` appends, piece by piece, is the response head |
| Http.PiecesFit | protocols/http.cpp:178-212 | a buffer of 64 bytes or more that is no shorter than the names takes the pieces of both packers, however full it is |
| SimpleSpec.ActualIsIntended | protocols/simple.cpp:11-83 | for every storage with any stale bytes, a call does what the length-plus-four reference does if and only if it meets the guard, and otherwise runs on where the reference waits |
| SimpleSpec.UnguardedField | protocols/simple.cpp:48-51 | a field that is taken too early never leads to NoEnoughData in that call |
| SimpleSpec.IntendedExtends | protocols/simple.cpp:11-83 | a verdict of the reference is final, and an interrupted call is resumed without a trace |
| SimpleSpec.ChunkingUnderGuard | protocols/simple.cpp:11-174 | for every cut in which each call meets the guard, the code gives the result of one call of the reference on the whole stream, and the read index stays inside the received bytes |
| SimpleSpec.ChunkingExactly | protocols/simple.cpp:11-174 | over every run, whatever the stale bytes, each call answers what the reference answers from scratch on the bytes so far if and only if each call meets the guard |
| SimpleSpec.OutsideExactly | protocols/simple.cpp:41-77 | a call leaves the storage, or gives a payload outside it, if and only if it takes a field too early whose length reaches behind the storage, directly or behind a path made of stale bytes |
| SimpleMeaning.RequestExactly | protocols/simple.cpp:11-83 | which bytes the reference accepts, rejects and waits for, by fixed offsets and lengths, and what is stored of an accepted request |
| SimpleMeaning.ResponseExactly | protocols/simple.cpp:116-174 | the same for responses, with the status |
| SimpleMeaning.Codes | protocols/protocol.proto:12-22 | the numbers of connection types and statuses on the wire |
| SimpleMeaning.HighByteFirst | net/buffer.h:67-75 | the first byte of a word is its high byte |
| SimpleMeaning.PackedBytes | protocols/simple.cpp:98-113 | a whole packed request, byte by byte |
| SimpleRoundTrip.RequestIntended | protocols/simple.cpp:98-113 | a complete packed request meets the guard |
| SimpleRoundTrip.RequestRoundTrip | protocols/simple.cpp:98-113 | service, method, connection type and payload of a packed request come back if and only if the service has no slash |
| SimpleRoundTrip.ResponseRoundTrip | protocols/simple.cpp:86-95 | every connection type, status and payload of a packed response comes back |
| SimpleRoundTrip.GuardIsNeeded | protocols/simple.cpp:48 | a request that is understood whole is answered with an error when cut inside the last four bytes of its path field |
| Simple.SimpleContext.ParseWords | protocols/simple.cpp:13-40 | the word stages are their specification |
| Simple.SimpleContext.ParseField | protocols/simple.cpp:41-77 | a field stage is its specification, with the code's length test and for any storage |
| Simple.SimpleContext.ParsePath | protocols/simple.cpp:51-63 | the path is split at its first slash, or rejected with only its length word retrieved |
| Simple.SimpleContext.ParseMsg | protocols/simple.cpp:11-83 | the staged parser of requests and responses is the specification for every storage, stale bytes included |
| Simple.SimpleContext.PackRequest | protocols/simple.cpp:98-113 | whenever the pieces fit one after the other, exactly the words and the path are appended to the data lane, and the payload becomes the extra lane |
| Simple.SimpleContext.PackResponse | protocols/simple.cpp:86-95 | whenever the pieces fit, exactly the four words are appended to the data lane, and the payload becomes the extra lane |
| Simple.RequestPiecesAreHead | protocols/simple.cpp:99-109 | what `pack_request` appends, word by word and piece by piece, is the request head |
| Simple.ResponsePiecesAreHead | protocols/simple.cpp:87-91 | what `pack_response` appends, word by word, is the response head |
| Simple.PiecesFit | protocols/simple.cpp:86-113 | a buffer of 4 bytes or more that is no shorter than the names takes the pieces of both packers |
| TimeStamps.LessIsMillis | base/timestamp.h:37-42 | on normal stamps the comparison is the order of milliseconds |
| TimeStamps.AfterMsMeaning | base/timestamp.h:57-63 | a delay is added exactly; the stamp is normal if and only if the delay does not reach back into part of an earlier second |
| TimeStamps.OrderExactly | base/timestamp.h:37-42 | the stamp of a delay compares with every normal stamp as the times do if and only if the delay does not reach back into part of an earlier second |
| TimeStamps.NegativeDelayMisorders | base/timestamp.h:57-63 | a negative delay can give a stamp that is earlier in time and compares as later |
| Timers.TopIsFirst | net/timer_manager.h:48-50 | the first element of the heap is not after any other |
| Timers.TimerManager.SiftUp | net/timer_manager.h:65-67 | sifting up with the non-strict comparator restores the heap and keeps the multiset of timers |
| Timers.TimerManager.SiftDown | net/timer_manager.h:52-54 | walking the hole down keeps every pair in order but the hole's own, and the multiset |
| Timers.TimerManager.AddTimer | net/timer_manager.h:65-67 | the heap stays a heap and gains exactly the new timer |
| Timers.TimerManager.Top | net/timer_manager.h:48-62 | the result is not after any queued timer |
| Timers.TimerManager.Pop | net/timer_manager.h:52-54 | the heap stays a heap and loses exactly its first element, once |
| Timers.TimerManager.Drain | net/eventloop.cpp:111-124 | a drain removes exactly the timers earlier than now, in non-decreasing order, leaves exactly the others and conserves the multiset |
| EventLoop.ComputeTimeout | net/eventloop.cpp:73-84 | the timeout that the loop computes from the heap and a clock reading is the specified one, from a timer not after any other |
| EventLoop.TakeDue | net/eventloop.cpp:111-124 | what the loop takes out of the heap is exactly what is due, in order, and the rest stays |
| EventLoop.TopIsTop | net/timer_manager.h:48-50 | the first element of the heap is the top that the step system computes with |
| EventLoop.DrainIsDue | net/eventloop.cpp:111-124 | what the drain of the heap promises is what the drain step of the step system takes and leaves |
| EventLoop.LockedStep | net/eventloop.cpp:176-180 | every step keeps: the function lock is held exactly by the thread inside `add_func` |
| EventLoop.WakeableStep | net/eventloop.cpp:25-52 | every step keeps: queued functions, a drained eventfd and a loop past its swap imply an adder whose write is still to come |
| EventLoop.TimelyStep | net/eventloop.h:51-58 | every step keeps: for each queued timer the eventfd is readable, its write is still to come, or the timeout was computed from a timer that does not compare as later |
| EventLoop.ConservedStep | net/eventloop.cpp:111-127 | every step keeps: armed timers are those queued, taken or fired, each once |
| EventLoop.NoLostWakeup | net/eventloop.cpp:72-109 | in every state of every interleaving, a loop asleep on queued functions has a thread in its lock section whose eventfd write is enabled and wakes it |
| EventLoop.NoOversleep | net/eventloop.cpp:72-86 | in every state of every run, with any delays and clock readings, a loop asleep on a timer whose eventfd write is done wakes by it if and only if the top it computed from is not later in time, while their difference to the clock is an `int`; beyond that it oversleeps the top itself |
| EventLoop.NoOversleepInOrder | net/eventloop.cpp:72-86 | without negative delays, a loop asleep wakes by every queued timer unless that timer's write is still to come, and enabled, or the clock is more than 2^31 ms past the earliest |
| EventLoop.TimeoutExactly | net/eventloop.cpp:77-84 | the computed timeout does not reach past the stamp if and only if the difference does not wrap to a positive `int` |
| EventLoop.RangeIsNeeded | base/timestamp.h:44-46 | a clock 49 days past the earliest stamp makes the loop sleep a second on an overdue timer |
| EventLoop.StopEndsSleep | net/eventloop.cpp:132-141 | once a call of `stop` has returned the loop is not asleep, and it exits at its next check |
| EventLoop.FunctionsRunInOrder | net/eventloop.cpp:102-109 | at every step the functions run, those taken and those queued are all additions in lock order, those added by functions included |
| EventLoop.TimersRunOnce | net/eventloop.cpp:111-127 | at every step each armed timer is queued, taken or fired exactly once, and fires only after a clock reading past its stamp |
| LoopRounds.CallEffect | net/eventloop.h:51-58 | `add_func` queues its function behind all others, `run_after` arms one timer for exactly its delay after the clock reading, `stop` sets the flag, and every write leaves the eventfd readable |
| LoopRounds.RoundWorks | net/eventloop.cpp:86-127 | in every run, between a return of `epoll_wait` and the next check the loop swaps the queue and drains the heap; at that check exactly the functions taken have run, in order, and exactly the timers due at the drain have fired |
| LoopRounds.ExitsOnlyByStop | net/eventloop.cpp:72 | the loop has left only if some call of `stop` has set the flag |
| LoopRounds.DueExists | net/eventloop.cpp:111-124 | for every heap and clock reading a drain is possible |
| LoopRounds.Progress | net/eventloop.cpp:71-129 | in every state of every run that the loop has not left, the loop or the thread that it waits for can go on |
| LoopRounds.TimeoutMeaning | net/eventloop.cpp:73-84 | without timers the timeout is 256 ms; otherwise it reaches exactly to the earliest stamp, or is nothing if that has passed |
| ServerInv.CloseRemoves | net/pb_server.cpp:161-170 | closing a registered connection removes it from memory, table, interest set and descriptors, and changes nothing else |
| ServerInv.AcceptKeeps | net/pb_server.cpp:79-101 | accepting at an address and descriptor that are free keeps every invariant, also when the address was used before |
| ServerInv.PartialKeeps | net/pb_server.cpp:126-128 | a read that lacks data keeps every invariant |
| ServerInv.RespondKeeps | net/pb_server.cpp:209-235 | packing a response, queueing the update and arming the write timer keep every invariant |
| ServerInv.WriteCompleteKeeps | net/pb_server.cpp:136-158 | a completed write, short or keep-alive, keeps every invariant |
| ServerInv.DispatchKeeps | net/tcpconnection.cpp:13-44 | handling a reported event, with any outcome of reading and writing, exceptions and aborts included, keeps every invariant |
| ServerInv.FuncKeeps | net/eventloop.cpp:144-173 | a queued `update_channel` meets a live connection and a legal MOD, and keeps every invariant |
| ServerInv.TimerKeeps | net/pb_server.cpp:238-255 | a due timer changes nothing, or closes a live connection whose current timer it is, and keeps every invariant |
| ServerRuns.RunsKeepInv | net/pb_server.cpp:79-255 | every state of every run of the server meets all invariants |
| ServerRuns.LifeCycleSafety | net/pb_server.cpp:161-170 | in every run no event, update or timer acts on a connection that is gone, the channel table holds exactly the live connections, and each identity is live or was closed once, not both |
| ServerRuns.EpollMirror | net/eventloop.cpp:144-173 | in every run the kernel's interest set is exactly the live connections with their `_sevent`, every ADD, MOD and DEL was legal, and EPOLLOUT implies a packed response |
| ServerRuns.QueuedUpdateIsForItsConnection | net/pb_server.cpp:222-226 | a queued `update_channel`, bound to an address only, meets the connection that queued it and switches it to writing |
| ServerRuns.ExactlyOneCurrentTimer | net/pb_server.cpp:229-234 | for every configuration, a live connection for which a timer was ever armed has exactly one pending timer with its `timer_id`, in the heap or in the batch and not both, and all its others have smaller ids; with the read timeout on every live connection has one |
| ServerRuns.TimerClosesIffLast | net/pb_server.cpp:238-255 | a firing timer closes its connection if and only if that is live and none was armed for it later; otherwise it changes nothing |
| ServerEffects.SentMeaning | net/tcpconnection.cpp:27-35 | the completion test holds if and only if the writes took the whole rest of the data lane and none ended the process |
| ServerEffects.ReadEffect | net/tcpconnection.cpp:13-26 | for every outcome of a readable event: what happens to the connection, its timers, the queue and the phase, and that no other connection is touched |
| ServerEffects.WriteEffect | net/tcpconnection.cpp:27-44 | a drained connection is closed if and only if its request said so, and otherwise reads again with a read timer if and only if that is on; one not drained is left alone |
| ServerEffects.ClosedExactly | net/pb_server.cpp:104-133 | in every run, end of file, no protocol left, a parse error and an unusable service close exactly the connection, once, with its descriptor; no other outcome closes anything |
| ServerEffects.AcceptEffect | net/pb_server.cpp:79-101 | in every run an accepted connection is live, reading and registered, with a read timer if and only if that is on, and no other is touched |
| ServerEffects.RemovesExactly | net/eventloop.h:65-71 | `remove_channel` takes away the entry of that address and stamp, and no other |
| ServerEffects.ShortClosesAfterWrite | net/pb_server.cpp:136-158 | over a run, when the write of a served request completes, the connection is gone if and only if the request said Short |
| ServerRounds.RoundWorks | net/eventloop.cpp:86-127 | in every run, between a return of `epoll_wait` and the next wait, exactly the reported events are handled, the queued functions run and the timers taken fired, each once, in order |
| ServerRounds.Progress | net/eventloop.cpp:71-129 | in every state of every run some step can be taken, unless the process has ended |
| Server.PbServer.UpdateChannel | net/eventloop.cpp:144-173 | where the kernel accepts the operation, `_sevent` becomes what was wanted, no other connection changes, and the interest set is as specified |
| Server.PbServer.CloseCallback | net/pb_server.cpp:161-170 | exactly the connection is freed, its descriptor is closed and out of the interest set, its table entry gone and the close recorded |
| Server.PbServer.RemoveChannel | net/eventloop.h:65-71 | the entry with the stamp is gone, and every other answer of `has_channel` is as before |
| Server.PbServer.Arm | net/pb_server.cpp:229-234 | the id grows by one and a timer with it is pending; nothing else of the connection changes |
| Server.PbServer.NewConnectionCallback | net/pb_server.cpp:79-101 | the new connection is in the table and registered for reading, and all invariants hold |
| Server.PbServer.ResponseCallback | net/pb_server.cpp:209-235 | the connection wants to write with its response packed, stays registered as it was, and its update is the last queued function |
| Server.PbServer.WriteCompleteCallback | net/pb_server.cpp:136-158 | a short connection is closed once; any other reads again, without a context |
| Server.PbServer.HandleEvents | net/tcpconnection.cpp:13-44 | the reported connection still exists, the specified step is taken, with the completion test on the write buffer, and all invariants hold |
| Server.PbServer.RunFunctions | net/eventloop.cpp:102-109 | after the function batch every connection is registered for exactly what it wants, and none has gone |
| Server.PbServer.TimeoutCallback | net/pb_server.cpp:238-255 | exactly the connection whose current timer fired is closed, if it is live |
| Selection.PassesOn | protocols/http.cpp:238-257 | a protocol that passes a connection on had no context and leaves none; a context always is of the protocol's own class |
| Selection.LoopKeepsBelonging | net/pb_server.cpp:104-120 | the protocol index only grows, stays once there is a context, and the context always belongs to the protocol at the index, so no downcast fails |
| Selection.NotBoth | protocols/simple.cpp:184-197 | no stream is taken for both protocols |
| Selection.ConnectIsUnknown | protocols/http.cpp:242-250 | a CONNECT request is passed on by HTTP |
| Selection.VerdictsStand | net/pb_server.cpp:104-115 | what the first bytes decided is not changed by further bytes |
| Selection.SaneFeed | net/pb_server.cpp:104-133 | over every feed, the context and index are what the received bytes decide |
| Selection.WinnerIsFixed | net/pb_server.cpp:104-133 | from seven bytes on, the winner is the same for every cut, any stale bytes and either order of registration, and is determined by the first bytes |
| Connection.TcpConnection.HttpParse | protocols/http.cpp:238-257 | the protocol's entry point creates, resumes or refuses a context as specified |
| Connection.TcpConnection.SimpleParse | protocols/simple.cpp:184-197 | the protocol's entry point creates, resumes or refuses a context as specified |
| Connection.TcpConnection.DataRead | net/pb_server.cpp:104-133 | the loop over protocols is the specified one, the index never falls, and the context belongs to the protocol at the index |
| Connection.TcpConnection.WriteEvents | net/tcpconnection.cpp:27-35 | after a `write_fd` that returns, the context is dropped and both buffers are cleared exactly if the data lane is empty, whatever the extra lane holds |
| Outcomes.OutcomesArePossible | net/pb_server.cpp:104-133 | whatever the protocols answer on whatever bytes, exceptions included, is an outcome that the life cycle admits; each answer has its own outcome, and a waiting connection stands for the reader that the loop left |
| Outcomes.ServerEndsExactly | net/pb_server.cpp:104-177 | the bytes received on an HTTP connection end the server, at any position of HTTP among the protocols and for any stale bytes, if and only if they are one of the streams of `StreamDecides` |
| Outcomes.OneHeaderEndsTheServer | protocols/http.cpp:152 | one request with the length `x`, and one with `-1`, end a server with HTTP |
| Outcomes.OneLineEndsTheServer | protocols/http.cpp:152 | so does the first line and one header line, with nothing behind them |
| Outcomes.SimpleEndsExactly | net/pb_server.cpp:104-177 | the bytes of a request of the simple protocol end the server if and only if a call on them leaves the storage, by the lengths in their fields |
| Delivery.GuardResumes | protocols/simple.cpp:41-77 | the guard on the bytes received so far covers the call that resumes in the middle |
| Delivery.HttpDelivery | net/pb_server.cpp:104-133 | however a request is cut, a server that has not passed HTTP ends with the parse of the whole request, after all its bytes have come, if the cast is harmless on it |
| Delivery.SimpleDelivery | net/pb_server.cpp:104-133 | the same for the simple protocol when every prefix received meets the guard |
| Delivery.HttpAnswer | net/pb_client.cpp:169-172 | however a response is cut, the client's read loop ends with the parse of the whole response |
| Delivery.SimpleAnswer | net/pb_client.cpp:169-172 | the same for the simple protocol under the guard |
| Exchange.DecidesExactly | net/pb_server.cpp:104-205 | in either protocol, for every connection type, every position of the protocol and every admissible cut, a packed request is served, with the connection to be closed exactly if it is Short, if the service can be used, and rejected otherwise |
| Exchange.ServesCall | net/pb_server.cpp:104-235 | however the bytes of a packed request are cut, the server dispatches the call that was packed, packs a reply with what the service returned, and keeps the connection exactly if it is not Short |
| Exchange.ReadsReply | net/pb_client.cpp:169-172 | however the bytes of the reply are cut, the client reads what the service returned |
| Exchange.ReplyFits | net/buffer.h:91-96 | a buffer of 64 bytes or more takes every reply, however full it is |
| EndToEnd.FilledMessage | net/pb_client.cpp:145-158 | what is to be sent from a buffer that was cleared and packed is exactly the pieces followed by the payload |
| EndToEnd.RequestOnTheWire | net/pb_client.cpp:145-168 | a request packed into the client's cleared buffer and drained with the data lane first is on the wire exactly |
| EndToEnd.ResponseOnTheWire | net/tcpconnection.cpp:27-35 | a reply packed into the server's buffer is on the wire exactly when the completion test holds, under the condition of `CompletionExactly` |
| EndToEnd.ShortNamesFit | net/buffer.h:91-96 | a call whose names are no longer than the capacity fits the client's buffer |
| EndToEnd.SendableMayNotFit | net/buffer.h:93 | a service name of 5000 bytes does not fit a new buffer of 1024 bytes, although the codec can carry it |
| EndToEnd.OneRound | net/pb_client.cpp:138-178 | over the write buffers of both sides, from packing to parsing, the server dispatches the call that was sent and the client reads what the service returned |
| EndToEnd.ExactlyOnce | net/pb_server.cpp:104-235 | over a session of any length (of one call if it is Short), with any service, any calls that fit the client's buffer, any writes that empty both buffers in order (for the server as `CompletionExactly` demands) and any admissible cuts of every message, the server dispatches exactly the calls sent and the client reads exactly their answers, in order |

## Left out

- Sockets, accept, connect, descriptors' options, logging, signals, time formatting: system calls and I/O without state of interest.
- Protobuf: a payload is an opaque byte string and a service a function from calls to byte strings; a request without a usable service is the outcome `Rejected` of the server's step.
- Services that run `done` later or on another thread, and the hand-over of connections to sub-loops: the server's theorems are for one loop and synchronous services, with each pair of address and stamp used once, because that pair is the only identity the code has.
- The asynchronous client and the client's `close_callback`; a client that received a malformed response goes on reading, the model stops there.
- Pipelined requests: `write_complete_callback` clears the read buffer, so the session theorem has the client wait for each response.
- The round-robin choice of loops, thread start and stop, the maps of services and methods, `DoneGuard` and the examples: simple look-ups.
- `EventLoop::loop` as one method: its steps interleave with other threads, so it is a step system on values; its head and its tail, which use the heap, are the methods `ComputeTimeout` and `TakeDue`.
- `PbClient` as a class: its drain loop is a run in `Lanes` and its read loop a feed in `Exchange`; the loops end only when the peer makes progress, which is not claimed.
- `wakeup` interrupted by a signal (EINTR) writes nothing and is not tried again; in the model a write fails only when the counter is full. With such a failure a wakeup can be lost until the timeout.
- EventLoop.NoOversleep: clock readings are normal stamps, as `gettimeofday` gives them; the wrap of the millisecond difference beyond 2^31 above the clock is only said not to oversleep the top.
- Selection.WinnerIsFixed: the storage stays 4 GiB below 2^64, as every real buffer does; the other results on feeds with stale bytes ask for the same.
- SimpleSpec.ChunkingUnderGuard: about the final answer, from the guard; that each call is right is equivalent to the guard (`ChunkingExactly`), while a single final answer can be right by chance, when a malformed path is rejected early on stale bytes.
- EndToEnd.ExactlyOnce: the server's writes are those under which a response is sent whole; `Lanes.CompletionExactly` proves that no others send it, and `Lanes.PayloadIsLost` is a run that loses payload. A call that does not fit the client's buffer overruns it, and nothing is claimed then.
- ServerRuns.ExactlyOneCurrentTimer: `timer_id` does not wrap around at 32 bits.
- HttpRoundTrip.RequestRoundTrip: that the pieces fit the buffer is a condition of the packing method (`Http.PiecesFit` gives a sufficient one), not of the text.
- The initial value of `rpc_status` is not set by the constructor of a context; it is the placeholder `RpcOk`, and no statement depends on it.
- Closing a descriptor a second time in the destructor of `Channel`: on one loop nothing is accepted between the two.
- Raw bytes are characters; statements hold for all of them.
- After an access outside the storage nothing is claimed; the model counts it as the end of the process, like an exception.
- The contents of a connection's write buffer are not part of the life-cycle state: a step for a writable connection takes any buffer and any results of its writes.
- Errors of `epoll_wait` and of the eventfd on which the code aborts: a run of the event loop simply ends there.
