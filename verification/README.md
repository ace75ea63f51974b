# A verified model of meinheld

meinheld is a WSGI server written in C, with a WebSocket layer in Python. This project models
the state machines at its centre in Dafny and proves what they are for. `dafny verify dfyconfig.toml`
checks all of it.

| file | models |
|---|---|
| `bytes.dfy`, `pieces.dfy`, `options.dfy` | octets with the parser's character classes, streams in pieces, missing values |
| `http_spec.dfy` | the request parser as a function of one octet, with the callbacks it runs |
| `http_safety.dfy` | the invariant of the parser and the order of its callbacks |
| `http_headers.dfy`, `http_messages.dfy`, `http_runs.dfy`, `http_chunks.dfy` | header matching, header blocks, Content-Length, bodies and chunks over whole runs |
| `http_requestline.dfy`, `http_requests.dfy`, `http_connections.dfy` | request lines, whole requests from their first octet on and when a connection is kept, two requests through one parser |
| `http_parser.dfy` | `http_parser_execute` as written: fields in place, marks, blocks, flush |
| `picoev_bits.dfy`, `picoev.dfy` | the timeout wheel: two levels of 16-bit words over a ring of 128 slots |
| `response_headers.dfy`, `response_runs.dfy`, `response.dfy`, `response_wire.dfy` | the header list of a response, what becomes of it as a function of the answers of `writev`, the writer itself (buckets, partial writes, chunked framing, suspend and resume), and its header block as a reader takes it |
| `heapq.dfy`, `main_loop.dfy` | timers, the timer heap, pending calls, registrations and the counter of the main loop |
| `websocket.dfy` | frames out and in, and `wait` |
| `request_body.dfy`, `end_to_end.dfy` | `write2buf`, `body_cb`, `wsgi.input`, and the way from the octets of a connection to the application |
| `url_path.dfy` | `PATH_INFO` and `QUERY_STRING`, decoded in place |
| `kqueue.dfy` | the pending list of the kqueue backend |

The environment is part of the statements. Reads arrive in any pieces; `writev` takes any non-empty part,
or answers that it would block or has failed, and answers 0 exactly when nothing is left; callbacks and application
code make any calls in any order; clocks only move forward; `realloc` answers as a parameter says where failure has
a branch of its own. The parameter `alone` of the timeout wheel names descriptors whose timeouts the callbacks of
other descriptors do not touch; the constants `mayStop` and `mayBreak` of the main loop say whether anything tells the
server to stop and whether a new connection may fail to be set up. Integers are unbounded, and the widths that matter (`uint64_t` lengths, `uint32_t`
bucket counters, the `int` delay, the `long` of `strtol`, the `int` word of the kqueue list, `char` in percent
escapes) are written out.

## What turned out not to hold

Each is stated with the input that shows it, or with the exact condition under which the code does what is wanted.

- The third letter of most methods is not looked at, so that "GEX" is GET (`HttpRequestLine.OnlyNames`,
  `HttpRequestLine.ThirdLetter`), and "M-SEARCH" is refused, its name being spelt "M - SEARCH"
  (`HttpRequestLine.NoSearch`).
- A version with the minor number 0, HTTP/2.0 for one, counts with HTTP/1.0: the connection is closed unless a line
  says keep-alive (`HttpRequests.RequestTaken`).
- Spaces anywhere between the digits of a Content-Length are passed over, so that "4 2" is 42
  (`HttpMessages.ContentLengthExact`).
- The overflow test on Content-Length lets some wraps through (`HttpMessages.ContentLengthWraps`).
- `set_content_length` outlives its message: the first digit of a Content-Length is taken exactly when no message
  that went through the same parser has had one (`HttpMessages.DigitTaken`, `HttpMessages.LengthTakenOnce`). A request
  with "Content-Length: 0" sent twice shows it when both are read together; `close_client` makes a new parser for a
  connection that is kept alive with no request waiting (`meinheld/server/server.c:361-378`), and that one takes the
  same octets (`HttpConnections.SecondLengthFails`).
- A Transfer-Encoding header in any other spelling, all lower-case for one, is an ordinary header
  (`HttpHeaders.CodingByLetter`); every other known name is matched in any case.
- An empty item in a chunked response ends the body; items come back exactly when none is empty
  (`HttpRuns.ChunkedExactly`).
- The write of the last chunk is not looked at: a response that counts as sent is out whole exactly when it is not
  chunked or that write came to `STATUS_OK` (`ResponseWriter.Client.ProcessWrite`). With a socket that takes the
  first write and would then block, all five octets are missing (`ResponseRuns.TailLost`).
- The tests for a line feed in a response header stop at the first NUL, while the whole value is sent
  (`ResponseHeaders.RefusedExactly`, `ResponseHeaders.NewlineBehindNul`).
- A header block that was held back counts towards the declared length, and the first item and those held back are
  not checked against it. A response that counts as sent has sent every item exactly if there is no item before the
  last, other than the first and those held back, up to which the items, with the header block if that was held back,
  reach the declared length (`ResponseRuns.Exactly`). With Content-Length 3, three items of one octet and a socket
  that would block once, the third item is never sent (`ResponseRuns.ItemLost`); with Content-Length 1 two items
  go out (`ResponseRuns.TooMuch`). Where the items have the length declared and the header block was not held back
  every octet goes out (`ResponseRuns.Honest`).
- The delay of `schedule_call` is cut to an `int`, and `sleep` does not look at the sign (`MainLoop.DelayKept`,
  `MainLoop.Server.Sleep`).
- Every `kill_server` after the first makes `activecnt` too low by the number of listeners, with the asserts of
  picoev off; with them on the process ends there (`MainLoop.Server.KillServer`).
- Resuming a client adds its descriptor to the event loop a second time: with the asserts of picoev off the wheel stays
  exact if and only if no timeout was under way, else its bit stays behind (`TimeoutWheel.Loop.AddAgain`).
- A timeout that a callback sets while the wheel lags behind the clock is reached by the same run, before its time,
  exactly when the lag is a whole round of the wheel (`TimeoutWheel.AgainInRun`); below that no descriptor is called
  twice in a run (`TimeoutWheel.Loop.HandleTimeout`).
- `body_cb` answers 0 when memory has run out, and the body so far is lost (`RequestBody.Request.BodyCb`).
- A WebSocket message in several frames survives only if its frames arrive in one piece
  (`WebSocketFraming.CutsDoNotMatter`, `WebSocketFraming.FragmentsRaise`).
- An escape of octets that are no hexadecimal digits is decoded all the same (`UrlPath.NoDigits`).
- A path is decoded twice; encoded once it comes back exactly when it holds no escape itself
  (`UrlPath.EncodedOnce`).
- The kqueue backend is not told of the removal of a descriptor without a pending change
  (`KqueueBackend.Loop.Del`).

Where the code and its own comments differ the model follows the code: the comment on `_pack_message` speaks of
messages between 00 and FF, but the frames are those of RFC 6455.

## Model

| member | source | states |
|---|---|---|
| HttpParsing.HttpParser.constructor | meinheld/server/http_parser.c:1925-1937 | a new request parser: all fields zero, waiting for a request, no callback run |
| HttpParsing.HttpParser.Execute | meinheld/server/http_parser.c:616-1882 | one call on a buffer leaves the fields, the callbacks (adjacent data callbacks joined), the error and the count that one octet at a time would leave, although marks, block reads of bodies and the flush at the end of the buffer are used; on an error the one callback that may be missing is that for the octets under the mark, up to the octet that failed; an empty buffer is the end of the stream, an error inside a message; after an error nothing changes |
| HttpParsing.HttpParser.Turn | meinheld/server/http_parser.c:669-681 | each pass of the loop, for one octet or for one block of body, keeps the fields in step with the octet-by-octet run and at most one mark set |
| HttpParsing.HttpParser.BodyBlock | meinheld/server/http_parser.c:1689-1723 | a block of min(rest of the buffer, rest of the body) octets is one run over all of them, with the completion when the count is used up |
| HttpParsing.HttpParser.Flush | meinheld/server/http_parser.c:1856-1874 | the data callback for the mark left at the end of the buffer: at most one of the four runs |
| HttpParsing.HttpParser.StartOctet | meinheld/server/http_parser.c:901-964 | the first octet of a message: flags and length are reset, the method is guessed, anything but a letter is refused |
| HttpParsing.HttpParser.MethodOctet | meinheld/server/http_parser.c:966-1030 | the method matcher agrees with the step function and its index stays inside the method's name |
| HttpParsing.HttpParser.MethodSwitch | meinheld/server/http_parser.c:978-1025 | the letters that turn one method into another, and those that are refused |
| HttpParsing.HttpParser.UrlOctet | meinheld/server/http_parser.c:1032-1099 | the octets of the request target under the url mark, and what ends it |
| HttpParsing.HttpParser.VersionOctet | meinheld/server/http_parser.c:1101-1218 | the protocol version, with its limit of 999 |
| HttpParsing.HttpParser.FieldStartOctet | meinheld/server/http_parser.c:1220-1267 | the first octet of a header line: the end of the block, or a name whose first letter chooses the matcher |
| HttpParsing.HttpParser.FieldOctet | meinheld/server/http_parser.c:1269-1396 | the rest of a header name under its mark and its matcher |
| HttpParsing.HttpParser.ValueStartOctet | meinheld/server/http_parser.c:1398-1467 | the first octet of a header value and the matcher for it |
| HttpParsing.HttpParser.ValueOctet | meinheld/server/http_parser.c:1469-1562 | the rest of a header value: Content-Length digits, codings and connection options |
| HttpParsing.HttpParser.LineEndOctet | meinheld/server/http_parser.c:1564-1584 | the flags a finished header line sets |
| HttpParsing.HttpParser.LwsOctet | meinheld/server/http_parser.c:1586-1594 | a folded line goes on with the value, anything else begins the next line |
| HttpParsing.HttpParser.HeadersEndOctet | meinheld/server/http_parser.c:1596-1645 | the end of the block or of the trailer: the headers callback, or the end of the message |
| HttpParsing.HttpParser.HeadersDoneOctet | meinheld/server/http_parser.c:1647-1687 | what follows the headers: upgrade, chunks, nothing, or a counted body |
| HttpParsing.HttpParser.ChunkHeadOctet | meinheld/server/http_parser.c:1736-1810 | the chunk size line |
| HttpParsing.HttpParser.ChunkEndOctet | meinheld/server/http_parser.c:1834-1847 | the end of a chunk, where its data callback runs |
| HttpParsing.ReadAll | meinheld/server/http_parser.c:616-1882 | however a stream is cut into reads, fields, callbacks and the offset at the end are those of one run over all of it, errors included, but for the data callback of the octets under the mark when the error comes |
| HttpRuns.BoundariesDoNotMatter | meinheld/server/http_parser.c:653-669 | runs over the pieces in turn end where one run over the whole stream ends |
| HttpRuns.RunStopped | meinheld/server/http_parser.c:1876-1882 | nothing after the octet that stops a run is looked at |
| HttpSafety.StepSafe | meinheld/server/http_parser.c:674-681 | every octet in every state keeps the invariant (matcher index inside its word, chunk states only under F_CHUNKED, a body count that is neither 0 nor the sentinel, at most 80*1024 header octets without an error), keeps the order of callbacks, and meets the assert on nread at a chunk size |
| HttpSafety.RunSafe | meinheld/server/http_parser.c:616-1882 | the same over every run from any reachable connection |
| HttpSafety.FreshReachable | meinheld/server/http_parser.c:1925-1937 | a new parser is reachable |
| HttpSafety.Alternate | meinheld/server/http_parser.c:1596-1604 | in a trace of the callback language begins and completes alternate |
| HttpSafety.MessagesAlternate | meinheld/server/http_parser.c:901-1099 | at every point of every stream from http_parser_init on, at most one message is open, and none when the parser is at rest |
| HttpRequestLine.MethodsRead | meinheld/server/http_parser.c:901-1030 | each of the 25 methods is read from its name |
| HttpRequestLine.OnlyNames | meinheld/server/http_parser.c:966-1030 | a word taken for a method has the letters of its name but for the third, M-SEARCH aside |
| HttpRequestLine.ThirdLetter | meinheld/server/http_parser.c:1009-1016 | GEX is taken for GET |
| HttpRequestLine.NoSearch | meinheld/server/http_parser.h:110-110 | M-SEARCH is taken for nothing |
| HttpRequestLine.PathRead | meinheld/server/http_parser.c:1032-1099 | from a path on exactly the visible octets of ASCII are taken |
| HttpRequestLine.TargetRefused | meinheld/server/http_parser.c:1061-1099 | the first octet behind a path that is neither visible nor ends the target is refused |
| HttpRequestLine.RunRequestLine | meinheld/server/http_parser.c:901-1218 | any method, any path, asterisk, absolute target or, for CONNECT, host, and any version up to 999.999 are taken, the target as one callback |
| HttpRequests.BlockSays | meinheld/server/http_parser.c:1269-1584 | the flags a header block sets, by the words of its names and values: close and keep-alive under Connection or Proxy-Connection, chunked, Upgrade |
| HttpRequests.RequestTaken | meinheld/server/http_parser.c:901-1734 | a whole request without chunks, in any cut: method, target, version, header lines, body and completion are reported once and in order; from version 1.1 on the connection is closed behind it exactly if a Connection or Proxy-Connection line says close, else exactly if none says keep-alive |
| HttpRequests.RequestInChunks | meinheld/server/http_parser.c:901-1847 | the same for a request in chunks, the Connection lines of its trailer counting too |
| HttpRequests.RequestUpgrades | meinheld/server/http_parser.c:1606-1657 | a request by CONNECT or with an Upgrade line ends at its headers, and nothing behind them is looked at |
| HttpRequests.RequestRefused | meinheld/server/http_parser.c:1619-1623 | a request that announces both a length and chunks is refused at the end of its headers |
| HttpRequests.ClosedTakesNothing | meinheld/server/http_parser.c:685-693 | behind a request that closes the connection nothing is taken but line ends |
| HttpRequests.TooLong | meinheld/server/http_parser.c:674-681 | no octet of a header past 80 kB is taken |
| Bytes.LettersExactly | meinheld/server/http_parser.c:410-412 | letters and digits are those of ASCII |
| Bytes.TokensExactly | meinheld/server/http_parser.c:155-188 | the octets a header name may hold, and what they are read as |
| Bytes.HexExactly | meinheld/server/http_parser.c:207-224 | hexadecimal digits of either case; no other octet of ASCII is one |
| HttpHeaders.NameTold | meinheld/server/http_parser.c:1269-1396 | the incremental name matcher ends in the state of a special header exactly when the name read spells that header (others in any case, Transfer-Encoding with its exact letters after the first) |
| HttpHeaders.CodingByLetter | meinheld/server/http_parser.c:1340-1349 | Transfer-Encoding is known exactly by its own letters, but for the case of the first |
| HttpHeaders.ValuesTold | meinheld/server/http_parser.c:1469-1562 | the incremental value matchers for chunked, keep-alive and close end as comparisons of the whole value would |
| HttpMessages.RunLine | meinheld/server/http_parser.c:1220-1584 | a whole header line, the first or a later one, with or without a value, runs its two data callbacks and sets exactly the flags its name and value call for |
| HttpMessages.RunLines | meinheld/server/http_parser.c:1220-1594 | any list of header lines with at most one Content-Length anywhere among them: their data callbacks in order, the flags of all of them, the length announced |
| HttpMessages.ContentLengthExact | meinheld/server/http_parser.c:1493-1515 | digits, with spaces anywhere behind the first, are accepted as the number they spell exactly when that number is below 2^64-1 |
| HttpMessages.ContentLengthWraps | meinheld/server/http_parser.c:1505-1511 | the overflow test misses a wrap: 50000000000000000000 is accepted, as another number |
| HttpMessages.CountedMessage | meinheld/server/http_parser.c:1647-1734 | with Content-Length N anywhere among any header lines, the N octets behind the block are delivered, then one completion, for every cut of the stream; then the next message or a dead connection as the keep-alive rule says |
| HttpMessages.CountedBody | meinheld/server/http_parser.c:1596-1734 | for whatever octets lead up to the line feed that ends a header block, folded lines and bare line feeds included: the N octets behind it, N being the length the parser has read from them or 0 without one, are delivered as one body, then one completion, for every cut; then the connection is closed from version 1.1 on exactly if the close flag is set, before that exactly if the keep-alive flag is not |
| HttpMessages.SetStays | meinheld/server/http_parser.c:901-904 | once set, set_content_length stays set over every run, also into the next message |
| HttpMessages.LengthTakenOnce | meinheld/server/http_parser.c:1436-1448 | on a parser that has read a Content-Length a further one is refused, whatever the octets in between |
| HttpMessages.DigitTaken | meinheld/server/http_parser.c:1436-1448 | the first digit of a Content-Length is taken exactly when set_content_length is not set; else the error is HPE_INVALID_CONTENT_LENGTH |
| HttpConnections.SecondLengthFails | meinheld/server/server.c:346-378 | a request with a Content-Length of 0 is taken whole by a new parser; sent twice through the same parser the second fails at its length |
| HttpConnections.RunGetLine | meinheld/server/http_parser.c:901-1218 | the line "GET / HTTP/1.1": the method, the target as one callback, the version |
| HttpRuns.RunBody | meinheld/server/http_parser.c:1689-1723 | a run over exactly the counted octets joins them into one data callback and completes |
| HttpRuns.RunHex | meinheld/server/http_parser.c:1751-1785 | a chunk size the writer prints is read as its number |
| HttpRuns.ChunkSizeExact | meinheld/server/http_parser.c:1751-1785 | hexadecimal digits in either case, leading zeros included, are accepted as the number they spell exactly when that is below 2^64-1 |
| HttpRuns.HexSpells | meinheld/server/response.c:246-252 | what the writer prints as a chunk's length spells that length |
| HttpRuns.RunAnyChunk | meinheld/server/http_parser.c:1736-1847 | any chunk, with digits in either case, zeros in front and an extension, delivers its data and leaves the parser at the next size |
| HttpRuns.RunChunk | meinheld/server/http_parser.c:1736-1847 | one chunk as the response writer prints it delivers its data and leaves the parser at the next size |
| HttpRuns.ChunkedRoundTrip | meinheld/server/http_parser.c:1736-1847 | the chunks of any list of non-empty items and the last chunk, in any cut, deliver the items joined and then exactly one completion |
| HttpChunks.ChunkedBody | meinheld/server/http_parser.c:1596-1847 | whatever octets lead up to the end of the header block and whatever sizes, extensions and trailer the sender writes, the data of the chunks is delivered as one body, then one completion, for every cut; trailer fields are reported like headers, and the keep-alive rule is that of the headers and the trailer |
| HttpChunks.RunLast | meinheld/server/http_parser.c:1788-1810 | the last chunk, of any number of zeros, with an extension and any trailer, completes the message |
| HttpRuns.EmptyChunkIsLast | meinheld/server/response.c:559-565 | an item of length zero is printed as the last chunk |
| HttpRuns.ChunkedExactly | meinheld/server/response.c:246-258 | printed items and the last chunk are taken without an error exactly when none of the items is empty |
| TimeoutWheel.Loop.constructor | meinheld/server/picoev.h:319-338 | an empty wheel of 128 slots; a slot is as many seconds long as 128 of them need to reach the maximal timeout, and no longer; each level of the bitmap has a bit for all below it and less than 128 to spare |
| TimeoutWheel.Loop.SetTimeout | meinheld/server/picoev.h:182-214 | the bitmaps stand for the map from descriptor to slot before and after; only the descriptor's own entry changes, to the slot its seconds call for |
| TimeoutWheel.Loop.Add | meinheld/server/picoev.h:218-238 | registration arms the timeout or, when the backend fails or the descriptor is out of range, changes nothing in the wheel |
| TimeoutWheel.Loop.AddAgain | meinheld/server/picoev.h:218-238 | adding a registered descriptor: the map forgets its timeout, and the wheel is exact afterwards if and only if none was under way; else its bit stays |
| TimeoutWheel.Loop.Del | meinheld/server/picoev.h:242-253 | removal disarms the descriptor |
| TimeoutWheel.Loop.DrainWord | meinheld/server/picoev.h:360-370 | the scan of a word by shifting runs exactly the callbacks of the armed descriptors of that word, in ascending order, whatever they do outside the slot |
| TimeoutWheel.Loop.DrainSlot | meinheld/server/picoev.h:347-379 | a slot is taken apart exactly: the callbacks run are those of the descriptors armed in it, each once, ascending, and the wheel is exact again afterwards |
| TimeoutWheel.Loop.HandleTimeout | meinheld/server/picoev.h:347-379 | the callback of a descriptor left alone by the others runs exactly when it was armed and its slot has ended by the clock, else its timeout stays as it was; no descriptor is called twice in a run that begins within a round of the wheel; the handler ends and its asserts hold |
| TimeoutWheel.Loop.LoopOnce | meinheld/server/picoev.h:383-394 | the same for the clock read after the poll; all callbacks run at that time |
| TimeoutWheel.Loop.ArmAndWait | meinheld/server/picoev.h:200-213 | over any runs of the loop, the callback of a descriptor left alone runs in none while the clock is at most now0 + s, and no run at now0 + s + resolution or later goes by without it; a clamped one waits for more than 127 resolutions |
| TimeoutWheel.FirstTimeout | meinheld/server/picoev.h:319-338 | from a new loop on, a timeout below the maximal one runs in no run of the loop until its time is past, and in the first one less than a 128th of the maximal timeout later; up to a maximum of 128 seconds in the very first run past its time |
| TimeoutWheel.ArmedIs | meinheld/server/picoev.h:352-370 | the list of armed descriptors of a slot holds each of them once, ascending, and no other |
| TimeoutWheel.Loop.NeverCurrent | meinheld/server/picoev.h:200-206 | a positive timeout set while a slot is taken apart never falls into that slot |
| TimeoutWheel.Loop.ArmedHere | meinheld/server/picoev.h:363-367 | the assert of the handler: whatever is armed in the current slot belongs to the loop |
| TimeoutWheel.OneStepOn | meinheld/server/picoev.h:349-352 | moving the base by one slot leaves the time of every other slot where it was |
| TimeoutWheel.TimingBounds | meinheld/server/picoev.h:200-206 | the end of the slot chosen lies after now0 + s and at most one resolution later, and after now0 + 127 resolutions when clamped |
| TimeoutWheel.AgainInRun | meinheld/server/picoev.h:200-206 | a timeout set in a run of the handler is reached by that run exactly when the wheel lags by a whole round, whatever its seconds |
| Bits.SomeBit | meinheld/server/picoev.h:355-361 | a word that is not zero has a bit set, found from the top |
| Bits.RestStep | meinheld/server/picoev.h:357-370 | shifting left while looking at the sign visits the bits from the top, each once |
| ResponseWriter.Bucket.Set | meinheld/server/response.c:238-244 | one more buffer; the counters are those of the bytes, modulo 2^32 |
| ResponseWriter.SetChunkedData | meinheld/server/response.c:246-252 | one item as a chunk |
| ResponseWriter.SetLastChunkedData | meinheld/server/response.c:254-258 | the last chunk |
| ResponseWriter.Bucket.Skip | meinheld/server/response.c:310-319 | after a partial write of w bytes the buffers hold all but the first w of what they held |
| ResponseWriter.Bucket.WritevBucket | meinheld/server/response.c:281-333 | however the socket takes the bytes, those sent and those left make up the bucket; total never falls below what is left; STATUS_OK means that everything was sent once and in order; the recursion ends |
| ResponseWriter.Client.AddAllHeaders | meinheld/server/response.c:416-534 | it succeeds exactly when no header is refused and the first Content-Length declares a number; then every header but Server and Date goes out as given and in order, and content_length_set and content_length are those of the first Content-Length |
| ResponseHeaders.DeclaredExactly | meinheld/server/response.c:488-501 | a Content-Length declares n exactly if it is n in decimal, zeros, a plus sign and white space being allowed in front, and n is below 2^63, or if it is empty and n is 0 |
| ResponseHeaders.AcceptedExactly | meinheld/server/response.c:466-501 | a list is accepted exactly if no header is refused and its first Content-Length, if any, declares a number, which is then the length |
| ResponseHeaders.SameNameExactly | meinheld/server/response.c:483-489 | names are the same exactly if they differ in the case of letters only |
| ResponseHeaders.RefusedExactly | meinheld/server/response.c:466-481 | a header with a line feed or with a colon in its name is refused, unless a NUL stands in front; without a NUL exactly those are |
| ResponseHeaders.NewlineBehindNul | meinheld/server/response.c:475-481 | a header with a line feed behind a NUL that is accepted and written with it |
| ResponseHeaders.NoneRefused | meinheld/server/response.c:466-481 | no header of an accepted list is refused |
| ResponseHeaders.LengthKnown | meinheld/server/response.c:488-501 | content_length_set tells whether there is a Content-Length among the headers of an accepted list |
| ResponseWriter.Client.FillHead | meinheld/server/response.c:596-650 | the header block, chunked exactly for a body without a length under HTTP/1.1; the bucket allocated for it never overflows |
| ResponseWriter.Client.PlanIs | meinheld/server/response.c:586-640 | the body goes out in chunks exactly if there is one, the request is no HEAD, the status is at least 200 and neither 204 nor 304, no header is a Content-Length and the minor version is 1; a declared length is the number its header writes |
| ResponseWire.HeadIsBlock | meinheld/server/response.c:596-650 | behind the status line the header block is header lines: Server, Date, those of the application, Transfer-Encoding if chunked, and Connection with the value its status and keep-alive call for |
| ResponseWire.ReaderTold | meinheld/server/response.c:630-650 | a reader of these lines learns that the body is in chunks exactly if it is, and that the connection is closed or kept as the server does |
| ResponseWriter.Client.WriteHeaders | meinheld/server/response.c:596-690 | header block and first item: the point they come to is the one Opened gives for the answers of writev, what is missing being held back; nothing is sent when a header is refused |
| ResponseWriter.Client.WriteItem | meinheld/server/response.c:811-860 | one item: all sent, or what is missing held back, the status and the octets sent being those the answers of writev call for |
| ResponseWriter.Client.ProcessWrite | meinheld/server/response.c:802-895 | the point process_write comes to is the one Write gives for the answers of writev: items go out whole and in order until the iterator ends or the length is reached; then everything is out exactly when the response is not chunked or the write of the last chunk, whose status is dropped, came to STATUS_OK |
| ResponseWriter.Client.ProcessBody | meinheld/server/response.c:897-926 | the bucket held back is retried before anything else is sent, then as process_write; the point reached is the one Retry gives for the answers of writev |
| ResponseWriter.Client.Respond | meinheld/server/response.c:1005-1029 | over any number of suspensions status, octets sent, octets held back, items sent and items left are those Whole gives for the answers of writev, and what is on the wire is the beginning of the header block and the frames of the items taken; a response that ends well has sent every item exactly if it stops behind none, and its whole body if its Content-Length writes the length of that and the header block was not held back |
| ResponseRuns.Exactly | meinheld/server/response.c:802-926 | a response that ends well has sent the items up to the first behind which it stops: not the first, not held back, and with the items up to it, and the header block if held back, at or past the declared length |
| ResponseRuns.Honest | meinheld/server/response.c:848-858 | where the declared length is that of the items and the header block was not held back, every octet of the body is out |
| ResponseRuns.InOneGo | meinheld/server/response.c:802-895 | with a socket that never blocks the response ends well at once, and all items are out exactly if there are at most two or those before the last stay below the declared length |
| ResponseRuns.Finishes | meinheld/server/response.c:281-333 | a response fails only on an error of writev, and is done after as many resumptions as the socket would have blocked |
| ResponseRuns.ItemLost | meinheld/server/response.c:897-926 | Content-Length 3, three items of one octet, a socket that would block once: the third item is never sent |
| ResponseRuns.TooMuch | meinheld/server/response.c:848-858 | Content-Length 1 and two items of one octet: both are sent |
| ResponseRuns.TailLost | meinheld/server/response.c:880-893 | a response of one item in chunks that ends with STATUS_OK, nothing held back, and the five octets of the last chunk unsent |
| TimerHeap.Timer.constructor | meinheld/server/timer.c:22-26 | a positive delay counts from the cached clock, any other is due at once |
| TimerHeap.Timer.Fire | meinheld/server/timer.c:48-67 | the action is to run exactly if the timer was neither run nor cancelled before |
| TimerHeap.Timer.Cancel | meinheld/server/timer.c:96-101 | a cancelled timer counts as called |
| TimerHeap.Heapq.SiftDown | meinheld/server/heapq.c:33-50 | an item out of place at the end of a path moves up to its place; the items stay the same |
| TimerHeap.Heapq.SiftUp | meinheld/server/heapq.c:52-75 | the hole runs down to a leaf along the lesser children, the item climbs back from there; the items stay the same |
| TimerHeap.Heapq.HeapPop | meinheld/server/heapq.c:77-100 | nothing from an empty queue, else the root, which is a least item; exactly that item goes and heap order is kept |
| TimerHeap.Heapq.HeapPush | meinheld/server/heapq.c:102-125 | exactly the new item comes, heap order is kept; at the capacity the array is doubled or, without memory, nothing changes |
| TimerHeap.Heapq.Drain | meinheld/server/heapq.c:22-31 | emptying the queue lets its items go in the order of their deadlines, each as often as it was in |
| TimerHeap.Heapq.constructor | meinheld/server/heapq.c:5-20 | an empty queue of 4096 places |
| TimerHeap.RootIsLeast | meinheld/server/heapq.c:77-100 | in a heap the root is no later than any item |
| TimerHeap.Rise | meinheld/server/heapq.c:38-46 | an exchange with the parent moves the only place where the order is broken up by one |
| TimerHeap.Sink | meinheld/server/heapq.c:62-72 | an exchange with the lesser child moves the hole down by one |
| TimerHeap.Heapq.RootFirst | meinheld/server/server.c:1609-1612 | heap[0], which fire_timers looks at, is a least timer |
| MainLoop.Server.constructor | meinheld/server/server.c:1635-1669 | after listen_all_sockets activecnt is the number of listeners |
| MainLoop.Server.InternalSchedule | meinheld/server/server.c:2251-2283 | a call without delay goes on top of the pending calls, any other into the heap, with the deadline its delay calls for; it fails, changing nothing, exactly when the queue is full and memory is out; activecnt counts it |
| MainLoop.Server.ReallocPendings | meinheld/server/server.c:139-158 | there is room for one more pending call, by doubling when full, unless memory is out |
| MainLoop.Server.ScheduleCall | meinheld/server/server.c:2285-2333 | schedule_call fails exactly for a negative delay or when its queue is full without memory, and takes any other delay as an int: pending, in the heap, or in the heap and due at once |
| MainLoop.DelayKept | meinheld/server/server.c:2314-2328 | the delay kept is the delay asked for exactly below 2^31 seconds; from there on it comes out negative, and as 0 at 2^32 |
| MainLoop.Server.Sleep | meinheld/server/server.c:2212-2241 | a negative sleep is put into the heap with the deadline 0, due at once, any other as schedule_call would; it fails exactly when the queue is full without memory |
| MainLoop.Server.Trampoline | meinheld/server/server.c:2091-2182 | waiting for a descriptor succeeds exactly with a descriptor, a non-negative timeout, something to wait for, and outside the hub; then the descriptor is registered and the count kept |
| MainLoop.Server.SuspendClient | meinheld/server/server.c:1935-2003 | a suspended client or a negative timeout is refused, else the descriptor is registered with one of two timeout callbacks, and counted |
| MainLoop.Server.ResumeClient | meinheld/server/server.c:2005-2066 | exactly a suspended client is resumed: its descriptor is registered for the callback that runs it on, the count kept |
| MainLoop.Server.CancelWait | meinheld/server/server.c:2068-2089 | the descriptor is released if it was registered |
| MainLoop.Server.CloseClient | meinheld/server/server.c:330-381 | afterwards the descriptor is registered exactly when the connection is kept alive and no piped request waits |
| MainLoop.Server.KillServer | meinheld/server/server.c:403-452 | the listeners go, the shutdown timer comes uncounted; the first stop keeps the count exact, every further one takes the number of listeners from it |
| MainLoop.Server.KillCallback | meinheld/server/server.c:395-401 | the shutdown timer goes uncounted, and ends the loop |
| MainLoop.Server.AcceptOne | meinheld/server/server.c:1176-1224 | a new connection is registered and counted exactly when its first read is to be followed by more, handed to the application when the request is whole, else left unregistered; a connection that cannot be set up ends the loop, a failing accept stops the server |
| MainLoop.Server.AcceptCallback | meinheld/server/server.c:1158-1227 | one to eight accepts, each with the registrations of a single accept, until none is left or one ends the loop or the server; nothing on a timeout; the count stays exact through each |
| MainLoop.Server.ReadCallback | meinheld/server/server.c:1136-1156 | a whole request releases the descriptor, a failed read closes it, anything else leaves it registered |
| MainLoop.Server.ResumeCallback | meinheld/server/server.c:744-775 | the descriptor is released and counted off before the waiting code runs on |
| MainLoop.Server.Event | meinheld/server/server.c:744-775 | any event on any registered descriptor keeps the count exact; the shutdown timer ends the loop |
| MainLoop.Server.FirePendings | meinheld/server/server.c:1579-1600 | the last call scheduled goes first; no other action runs, and each listed one ran unless called before or cancelled; without new calls the pending ones go in reverse order; it fails exactly when a callback raised, which was the last to run; else none is pending at the end unless the loop was stopped; it terminates when finitely many calls without delay are made |
| MainLoop.Server.FireTimers | meinheld/server/server.c:1602-1633 | no timer runs before it is due by the clock at the start, and no action but of the timers listed; without negative delays exactly the timers due then are called, in the order of their deadlines, the others stay; it fails exactly when a callback raised; else no due timer is left unless the loop was stopped; it terminates although callbacks schedule more |
| MainLoop.FireStep | meinheld/server/server.c:1608-1630 | firing a least due timer brings the account of due timers one step on, whatever its callback schedules |
| MainLoop.PopStep | meinheld/server/server.c:1584-1598 | the same for a pending call |
| MainLoop.DueStays | meinheld/server/timer.c:22-26 | callbacks add no timer that is already due, unless with a negative delay |
| MainLoop.Onward | meinheld/server/server.c:1579-1633 | what holds between two points of a run holds across any further ones: no called timer is called again, queues only take new timers |
| MainLoop.Server.FireAll | meinheld/server/server.c:1735-1738 | the pending calls, then the due timers, as fire_pendings and fire_timers say; an exception is that of the last callback run by either; if the loop runs and nothing raised, every call pending at the start and every timer due by then has been called, its action run unless cancelled |
| MainLoop.Server.Turn | meinheld/server/server.c:1735-1762 | one turn of the main loop, with any application, any events and any signal, keeps activecnt equal to the registered descriptors other than the shutdown timer plus pending calls plus timers; every call pending and every timer due at its start has been called, unless one of the callbacks that ran raised; events run no timer |
| MainLoop.Server.Run | meinheld/server/server.c:1702-1787 | the count is exact after any number of turns, the first of which calls what was pending and due; the loop stops before only when no descriptor, pending call or timer is left, or loop_done was cleared, which takes a stopped server or a connection that cannot be set up; a server nobody stops is not stopped |
| MainLoop.Server.LoopsWhileWork | meinheld/server/server.c:1735-1735 | activecnt is positive exactly when a descriptor, a pending call or a timer is left to wait for |
| WebSocketFraming.Packed | meinheld/websocket.py:252-293 | _pack_message succeeds exactly for version 13 and lengths below 2^64, and prints the unmasked frame of RFC 6455 section 5.2 in the shortest of the three length forms |
| WebSocketFraming.MaskedTwice | meinheld/websocket.py:347-355 | masking with the same key undoes itself |
| WebSocketFraming.ReadWire | meinheld/websocket.py:310-355 | a printed frame, masked or not, in any length form, is read back with all its parts and its size |
| WebSocketFraming.ReadShort | meinheld/websocket.py:310-342 | nothing short of a whole frame is read as one |
| WebSocketFraming.ReadStable | meinheld/websocket.py:310-355 | octets that arrive later do not change a frame |
| WebSocketFraming.WebSocket.FrontFrame | meinheld/websocket.py:310-355 | the frame at the front of the buffer, or that it is not whole yet |
| WebSocketFraming.WebSocket.ParseMessages | meinheld/websocket.py:295-382 | the messages of all whole frames, the rest of the buffer, the closed flag and the exception, ill-formed UTF-8 in a text frame included, are those of the recursive description; a close frame stays in the buffer |
| WebSocketFraming.WebSocket.Next | meinheld/websocket.py:398-412 | wait hands out the oldest message, reading and parsing as long as there is none |
| WebSocketFraming.ParseSplit | meinheld/websocket.py:306-382 | parsing in two parts gives the same messages if the message under way were carried over |
| WebSocketFraming.CutsDoNotMatter | meinheld/websocket.py:306-382 | the pieces recv returns do not matter, for a stream that parses without an exception, exactly when no frame continues, or delivers by a ping or pong, a message begun by an earlier frame |
| WebSocketFraming.FragmentsRaise | meinheld/websocket.py:357-361 | a text message in two frames is delivered from one piece and raises when cut between them |
| WebSocketFraming.WaitOwed | meinheld/websocket.py:398-412 | each wait returns the first message still owed and loses none |
| WebSocketFraming.RoundTrip | meinheld/websocket.py:295-412 | whole messages, masked with any keys or not, in any pieces, are returned by successive waits in order, then None |
| WebSocketFraming.CloseEnds | meinheld/websocket.py:367-370 | whole text and binary frames, pings and pongs, then a close frame, then anything, under any keys and in any pieces: successive waits return the messages, None for each ping and pong, then None for ever, and none raises |
| WebSocketFraming.BadFrameRaises | meinheld/websocket.py:357-377 | behind any whole frames a frame with an unknown opcode, a continuation of nothing or text that is not UTF-8 makes a wait raise, in any cut, after the first of their values have been returned |
| WebSocketFraming.Examples | meinheld/websocket.py:310-355 | the examples of section 5.7 of RFC 6455 are read as they say |
| WebSocketFraming.XorBit | meinheld/websocket.py:347-355 | masking sets each bit exactly where octet and key differ |
| WebSocketFraming.DecodesExactly | meinheld/websocket.py:357-366 | text is taken exactly if it is the UTF-8 of some characters |
| WebSocketFraming.PackedStream | meinheld/websocket.py:384-396 | what successive sends print is the stream of those frames |
| RequestBody.Buffer.constructor | meinheld/server/buffer.c:84-100 | an empty buffer with its limit, 0 meaning 2^30 |
| RequestBody.Buffer.Write | meinheld/server/buffer.c:102-133 | the buffer holds the first min(total, limit) octets written; LIMIT_OVER is returned exactly when octets came past the limit; without memory the buffer is emptied |
| RequestBody.Buffer.Grow | meinheld/server/buffer.c:108-124 | there is room for all octets and one more, or for the limit and one more |
| RequestBody.Request.BodyCb | meinheld/server/http_request_parser.c:649-686 | 413 exactly past the maximum, 411 exactly when nothing announced a body, else the octets are added to what came before, in memory or in a file by the announced length, or lost with all before them exactly when the buffer must grow without memory |
| RequestBody.Request.HeadersCompleteCb | meinheld/server/http_request_parser.c:688-824 | what headers_complete_cb makes of the length the parser has read: refused with 413 exactly past the maximum, else taken as the length announced, 0 when there was none |
| RequestBody.Input.ReadSome | meinheld/server/input.c:85-109 | read returns the next n octets, or all that is left when there are fewer or n is negative |
| RequestBody.Input.InnerReadLine | meinheld/server/input.c:111-134 | the cursor passes the first line that is left, its newline included |
| RequestBody.Input.ReadOneLine | meinheld/server/input.c:136-159 | readline returns the line or its first octets, as many as its limit allows, and puts the cursor back behind them |
| RequestBody.Input.ReadManyLines | meinheld/server/input.c:161-204 | readlines returns lines, up to the size hint |
| RequestBody.LineLength | meinheld/server/input.c:111-134 | a line holds no newline but its last octet, which is one unless the body ends there |
| RequestBody.LinesArePieces | meinheld/server/input.c:179-197 | the lines returned are consecutive pieces from the cursor on, and stop only at the end or past the hint |
| RequestBody.LinesAreLines | meinheld/server/input.c:179-197 | each line ends with its only newline, but for the last of the body |
| RequestBody.LinesGoOn | meinheld/server/input.c:193-196 | they do not stop before the hint is reached |
| RequestBody.ReadsAreTheBody | meinheld/server/input.c:85-204 | any calls of read, readline and readlines return consecutive pieces of the body, and what they leave is the rest |
| RequestBody.ReadToTheEnd | meinheld/server/input.c:96-101 | a read without a size leaves nothing |
| RequestBody.Input.PerformAll | meinheld/server/input.c:85-204 | any calls one after the other return what they are to, each from where the one before it has stopped |
| RequestBody.AllAnswered | meinheld/server/input.c:85-204 | each call answers what it asks for, as far as the body goes: n octets, a line or its first octets, lines until the hint |
| RequestBody.ReadsReachTheEnd | meinheld/server/input.c:85-109 | reads of positive size come back empty at the end of the body only, and enough of them reach it |
| EndToEnd.BodyJoined | meinheld/server/http_request_parser.c:649-686 | joining adjacent data callbacks does not change the body they carry |
| EndToEnd.Deliver | meinheld/server/http_request_parser.c:649-824 | the callbacks of one request are taken exactly when neither the length announced nor the octets sent pass the maximum and a body was announced if one was sent; the request then holds the octets sent, joined |
| EndToEnd.ServeCounted | meinheld/server/http_request_parser.c:649-851 | from the octets of a request without chunks, whatever leads up to its body and in any reads, through the parser, headers_complete_cb and body_cb: it is taken exactly if the body is not too long, and then any calls on wsgi.input are answered as they are to be by consecutive pieces of exactly the body sent; the connection is then closed exactly if version and flags say so |
| EndToEnd.BlockCounted | meinheld/server/http_parser.c:1220-1645 | any header lines with one Content-Length among them lead up to a body of that length |
| EndToEnd.RequestCounted | meinheld/server/http_parser.c:901-1645 | the first octets of any whole request without chunks lead up to its body |
| EndToEnd.ServeChunked | meinheld/server/http_request_parser.c:649-851 | the same for a request in chunks of any sizes, extensions and trailer |
| EndToEnd.BlockChunked | meinheld/server/http_parser.c:1220-1645 | any header lines without a Content-Length that set the chunked flag lead up to a body in chunks |
| EndToEnd.RequestChunked | meinheld/server/http_parser.c:901-1645 | the same for a request in chunks |
| UrlPath.UrlDecode | meinheld/server/http_request_parser.c:207-225 | decoding in place yields the percent-decoding; the write cursor never passes the read cursor, and nothing past the terminator is touched |
| UrlPath.SetQuery | meinheld/server/http_request_parser.c:280-323 | QUERY_STRING is the text up to the next # or the end, whatever octet follows the buffer, and is not set when empty |
| UrlPath.FirstPass | meinheld/server/http_request_parser.c:325-352 | the first pass stops at the first ? or # outside an escape and leaves the decoded path before it and the rest untouched |
| UrlPath.SetPath | meinheld/server/http_request_parser.c:325-370 | PATH_INFO is the twice decoded path |
| UrlPath.Target | meinheld/server/http_request_parser.c:625-647 | a request target past 8192 octets, in any pieces, is refused with 400; any other is decoded as one text |
| UrlPath.UnescapeEscape | meinheld/server/http_request_parser.c:198-225 | decoding undoes percent-encoding, with digits in either case and any safe octets left alone |
| UrlPath.NoDigits | meinheld/server/http_request_parser.c:198-205 | %GG stands for the octet 16 |
| UrlPath.EncodedTwice | meinheld/server/http_request_parser.c:325-370 | a path encoded twice comes back, with any query and fragment after it, and the query comes back as it is |
| UrlPath.EncodedOnce | meinheld/server/http_request_parser.c:353-356 | a path encoded once comes back exactly when it holds no percent sign with two octets after it |
| UrlPath.PathLength | meinheld/server/http_request_parser.c:333-350 | the path ends at a ? or # or at the end |
| KqueueBackend.BackendRoundTrip | meinheld/server/picoev_kqueue.c:42-45 | next descriptor and old events come back from the word they share, the end marker too, and the word is never taken for no change |
| KqueueBackend.BackendLimit | meinheld/server/picoev_kqueue.c:42-45 | the next descriptor comes back exactly if it is below 2^23 |
| KqueueBackend.NoneTwice | meinheld/server/picoev_kqueue.c:50-50 | the list threaded through the words holds each descriptor at most once, so it has no cycle |
| KqueueBackend.OneTold | meinheld/server/picoev_kqueue.c:66-74 | the entries for one descriptor take the kernel from the events it had to those it has, and touch no other |
| KqueueBackend.ListTold | meinheld/server/picoev_kqueue.c:57-96 | the entries of the whole list make the kernel watch what each descriptor on it has now, and change nothing for the others |
| KqueueBackend.Loop.ApplyPendingChanges | meinheld/server/picoev_kqueue.c:57-96 | the list is emptied, every change goes to the kernel or stays in the changelist once and in list order, no index passes the end, and the loop ends |
| KqueueBackend.Loop.Tell | meinheld/server/picoev_kqueue.c:69-91 | the entries of one descriptor; a full changelist is handed over first in, first out |
| KqueueBackend.Loop.UpdateEvents | meinheld/server/picoev_kqueue.c:135-163 | an active descriptor is on the list exactly if its word is not -1; it is put at the head with its present events, once; a change to what it has is nothing |
| KqueueBackend.Loop.Add | meinheld/server/picoev.h:218-238 | registering a descriptor puts it on the list unless it waits for a timeout only |
| KqueueBackend.Loop.SetEvents | meinheld/server/picoev.h:269-278 | a change of events puts the descriptor on the list once |
| KqueueBackend.Loop.Del | meinheld/server/picoev.h:242-253 | removing a descriptor with a pending change applies the whole list; without one nothing is told to the kernel |
| KqueueBackend.Loop.PollOnce | meinheld/server/picoev_kqueue.c:165-180 | all pending changes are with the kernel when the poll waits |

## Left out

- Responses as input, `HTTP_BOTH`, `http_parser_parse_url` and host parsing: the server parses requests only.
- Callbacks that fail or pause the parser, and `F_SKIPBODY`: the parser is modelled with callbacks that return 0; when headers_complete_cb or body_cb refuses a request, what the parser does from there on is not followed.
- HttpMessages.ContentLengthExact: does not describe which longer digit strings slip through the overflow test; `HttpMessages.ContentLengthWraps` shows that some do.
- HttpMessages.CountedMessage: folded header lines, lines ended by a bare line feed and names without a colon are not among its header lines; `HttpMessages.CountedBody` takes them all, but reads the length off the parser.
- HttpRequestLine.RunRequestLine: lines without a version, which the parser takes for HTTP/0.9, further spaces between the parts, and a user in front of a host are in the step function but not in its request lines.
- HttpRuns.ChunkSizeExact: does not describe which longer strings slip through the overflow test, nor sizes with octets from 128 on, which the table reads as the digit 0.
- TimeoutWheel.Loop.HandleTimeout: callbacks that set or clear a timeout armed in the slot being taken apart, other than their own, are not allowed; the handler works on copies of the words, and the code leaves them stale.
- Several event loops, `picoev_next_fd` and overflow of `time_t`: one loop is used.
- ResponseWriter.Client.Respond: header block and items stay below the 4 GiB of the 32-bit counters of a bucket.
- Error pages, `sendfile` and file wrappers, and items that are not bytes: plumbing around the same buckets.
- TimerHeap.Heapq.HeapPush: does not model the wrap of the 32-bit capacity at 2^32 places.
- MainLoop.Server.Turn: application code leaves the descriptors of the listeners alone and stops the server at most once; what a further stop does is stated by `MainLoop.Server.KillServer`.
- MainLoop.Server.ResumeClient: says which descriptors are registered, not what the timeout wheel holds after the second `picoev_add`; `TimeoutWheel.Loop.AddAgain` states that.
- MainLoop.Server.FirePendings: termination is for finitely many calls without delay in a run; code that always schedules another such call keeps the loop of the source busy for ever.
- MainLoop.Server.FireTimers: termination is for finitely many negative delays in a run, for the same reason.
- Greenlet switching: a callback, with all the code it resumes, is one step; the code of a piped request follows as further steps.
- The build without greenlets (`write_callback`), the watchdog, signals other than one that stops the server, and failures of the poll backend.
- WebSocket handshakes and protocol version 76: the framing code refuses it.
- EndToEnd.Deliver: memory lasts; what its end does is stated by `RequestBody.Request.BodyCb`. A body kept in a file is modelled as the octets written to it.
- Reading `wsgi.input` from a file: it is a Python file object.
- Header names and values as environ keys, and trailer fields: string plumbing.
- The free lists, reference counts and memory layout of the C code.
- kqueue and the kernel: the changes handed over are modelled, not what the kernel makes of them.
