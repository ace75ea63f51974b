/** From the octets of a connection to what an application reads from wsgi.input. */
module EndToEnd {
  import opened Bytes
  import opened Pieces
  import opened HttpSpec
  import opened HttpSafety
  import opened HttpRuns
  import opened HttpMessages
  import opened HttpChunks
  import opened HttpRequestLine
  import opened HttpRequests
  import opened HttpParsing
  import opened RequestBody

  /** The pieces of body among the callbacks run. */
  function BodyPieces(calls: seq<Event>): seq<seq<Byte>> {
    if calls == [] then []
    else
      var e := calls[|calls| - 1];
      BodyPieces(calls[..|calls| - 1]) + if e.OnBody? then [e.data] else []
  }

  function BodyOf(calls: seq<Event>): seq<Byte> {
    Flatten(BodyPieces(calls))
  }

  lemma PiecesSnoc(t: seq<Event>, e: Event)
    ensures BodyPieces(t + [e]) == BodyPieces(t) + if e.OnBody? then [e.data] else []
  {
    assert (t + [e])[..|t|] == t;
  }

  lemma PiecesEmit(t: seq<Event>, e: Event)
    ensures BodyPieces(Emit(t, e)) == [] <==> BodyPieces(t) == [] && !e.OnBody?
  {
    PiecesSnoc(t, e);
    if t != [] && SameData(t[|t| - 1], e) {
      var front, last := t[..|t| - 1], t[|t| - 1];
      assert t == front + [last];
      PiecesSnoc(front, last);
      PiecesSnoc(front, last.(data := last.data + e.data));
    }
  }

  lemma {:induction false} PiecesJoined(calls: seq<Event>)
    ensures BodyPieces(Joined(calls)) == [] <==> BodyPieces(calls) == []
  {
    if calls != [] {
      var front, last := calls[..|calls| - 1], calls[|calls| - 1];
      assert calls == front + [last];
      PiecesJoined(front);
      PiecesEmit(Joined(front), last);
      PiecesSnoc(front, last);
    }
  }

  lemma NoPiecesNoBody(t: seq<Event>)
    requires BodyPieces(t) == []
    ensures BodyOf(t) == []
  {}

  lemma BodySnoc(t: seq<Event>, e: Event)
    ensures BodyOf(t + [e]) == BodyOf(t) + if e.OnBody? then e.data else []
  {
    PiecesSnoc(t, e);
    assert BodyPieces(t) + [] == BodyPieces(t) && BodyOf(t) + [] == BodyOf(t);
    if e.OnBody? {
      FlattenConcat(BodyPieces(t), [e.data]);
      FlattenOne(e.data);
    }
  }

  lemma BodyEmit(t: seq<Event>, e: Event)
    ensures BodyOf(Emit(t, e)) == BodyOf(t) + if e.OnBody? then e.data else []
  {
    BodySnoc(t, e);
    if t != [] && SameData(t[|t| - 1], e) {
      var front, last := t[..|t| - 1], t[|t| - 1];
      assert t == front + [last];
      BodySnoc(front, last);
      BodySnoc(front, last.(data := last.data + e.data));
    }
  }

  /** Joining adjacent data callbacks does not change the body they carry. */
  lemma {:induction false} BodyJoined(calls: seq<Event>)
    ensures BodyOf(Joined(calls)) == BodyOf(calls)
  {
    if calls != [] {
      var front, last := calls[..|calls| - 1], calls[|calls| - 1];
      assert calls == front + [last];
      BodyJoined(front);
      BodyEmit(Joined(front), last);
      BodySnoc(front, last);
    }
  }

  // ---- the headers callback ----

  /** What the headers callbacks saw of the parser. */
  function HeadersSeen(calls: seq<Event>): seq<Parser> {
    if calls == [] then []
    else
      var e := calls[|calls| - 1];
      HeadersSeen(calls[..|calls| - 1]) + if e.OnHeadersComplete? then [e.seen] else []
  }

  /** A piece of body comes before any headers callback. */
  predicate Early(calls: seq<Event>) {
    if calls == [] then false
    else Early(calls[..|calls| - 1]) || (calls[|calls| - 1].OnBody? && HeadersSeen(calls[..|calls| - 1]) == [])
  }

  lemma SeenSnoc(t: seq<Event>, e: Event)
    ensures HeadersSeen(t + [e]) == HeadersSeen(t) + if e.OnHeadersComplete? then [e.seen] else []
    ensures Early(t + [e]) <==> Early(t) || (e.OnBody? && HeadersSeen(t) == [])
  {
    assert (t + [e])[..|t|] == t;
  }

  lemma SeenEmit(t: seq<Event>, e: Event)
    ensures HeadersSeen(Emit(t, e)) == HeadersSeen(t) + if e.OnHeadersComplete? then [e.seen] else []
    ensures Early(Emit(t, e)) <==> Early(t) || (e.OnBody? && HeadersSeen(t) == [])
  {
    SeenSnoc(t, e);
    if t != [] && SameData(t[|t| - 1], e) {
      var front, last := t[..|t| - 1], t[|t| - 1];
      assert t == front + [last];
      SeenSnoc(front, last);
      SeenSnoc(front, last.(data := last.data + e.data));
    }
  }

  lemma {:induction false} SeenJoined(calls: seq<Event>)
    ensures HeadersSeen(Joined(calls)) == HeadersSeen(calls) && (Early(Joined(calls)) <==> Early(calls))
  {
    if calls != [] {
      var front, last := calls[..|calls| - 1], calls[|calls| - 1];
      assert calls == front + [last];
      SeenJoined(front);
      SeenEmit(Joined(front), last);
      SeenSnoc(front, last);
    }
  }

  /** A trace that carries no body and has not come to the end of its headers. */
  predicate InHead(t: seq<Event>) {
    BodyPieces(t) == [] && HeadersSeen(t) == [] && !Early(t)
  }

  /** A trace of one request: its headers have been seen once, and the body behind them. */
  predicate OneRequest(t: seq<Event>, q: Parser, body: seq<Byte>) {
    HeadersSeen(t) == [q] && !Early(t) && BodyOf(t) == body && (body == [] ==> BodyPieces(t) == [])
  }

  lemma RequestJoined(calls: seq<Event>, q: Parser, body: seq<Byte>)
    ensures OneRequest(Joined(calls), q, body) <==> OneRequest(calls, q, body)
  {
    PiecesJoined(calls);
    SeenJoined(calls);
    BodyJoined(calls);
  }

  lemma HeadersEnd(t: seq<Event>, q: Parser)
    requires InHead(t)
    ensures OneRequest(Emit(t, OnHeadersComplete(q)), q, [])
  {
    hide Emit, BodyPieces, HeadersSeen, Early, BodyOf;
    SeenEmit(t, OnHeadersComplete(q));
    PiecesEmit(t, OnHeadersComplete(q));
    NoPiecesNoBody(Emit(t, OnHeadersComplete(q)));
  }

  lemma BodyComes(t: seq<Event>, q: Parser, body: seq<Byte>)
    requires OneRequest(t, q, []) && body != []
    ensures OneRequest(Emit(t, OnBody(body)), q, body)
  {
    hide Emit, BodyPieces, HeadersSeen, Early, BodyOf;
    SeenEmit(t, OnBody(body));
    BodyEmit(t, OnBody(body));
    assert [] + body == body;
  }

  /** Any other callback leaves the body as it is. */
  lemma OtherComes(t: seq<Event>, e: Event, q: Parser, body: seq<Byte>)
    requires OneRequest(t, q, body) && !e.OnBody? && !e.OnHeadersComplete?
    ensures OneRequest(Emit(t, e), q, body)
  {
    hide Emit, BodyPieces, HeadersSeen, Early, BodyOf;
    SeenEmit(t, e);
    BodyEmit(t, e);
    PiecesEmit(t, e);
    assert body + [] == body;
  }

  lemma {:induction false} LinesCome(t: seq<Event>, hs: seq<Header>, q: Parser, body: seq<Byte>)
    requires OneRequest(t, q, body)
    ensures OneRequest(EmitLines(t, hs), q, body)
    decreases |hs|
  {
    hide Emit, OneRequest;
    if hs != [] {
      var front, h := hs[..|hs|-1], hs[|hs|-1];
      LinesCome(t, front, q, body);
      OtherComes(EmitLines(t, front), OnHeaderField(h.name), q, body);
      OtherComes(Emit(EmitLines(t, front), OnHeaderField(h.name)), OnHeaderValue(h.value), q, body);
    }
  }

  lemma HeadLine(t: seq<Event>, e: Event)
    requires InHead(t) && !e.OnBody? && !e.OnHeadersComplete?
    ensures InHead(Emit(t, e))
  {
    hide Emit, BodyPieces, HeadersSeen, Early;
    SeenEmit(t, e);
    PiecesEmit(t, e);
  }

  lemma {:induction false} HeadLines(t: seq<Event>, hs: seq<Header>)
    requires InHead(t)
    ensures InHead(EmitLines(t, hs))
    decreases |hs|
  {
    hide Emit, InHead;
    if hs != [] {
      var front, h := hs[..|hs|-1], hs[|hs|-1];
      HeadLines(t, front);
      HeadLine(EmitLines(t, front), OnHeaderField(h.name));
      HeadLine(Emit(EmitLines(t, front), OnHeaderField(h.name)), OnHeaderValue(h.value));
    }
  }

  // ---- from the reads to wsgi.input ----

  /** The bytes of a request are taken: not too many announced, not too many sent, and some announced if sent. */
  predicate Accepted(max: nat, q: Parser, pieces: seq<seq<Byte>>) {
    && Announced(q.contentLength) <= max && |Flatten(pieces)| <= max
    && (pieces == [] || Announced(q.contentLength) > 0 || q.flags.chunked)
  }

  /** A request after the callbacks done. */
  ghost predicate HeldSoFar(request: Request, done: seq<Event>, q: Parser)
    reads request, request.body
  {
    && request.lost == 0 && request.Received() == BodyOf(done) && request.bodyRead == |BodyOf(done)|
    && (request.bodyType == BODY_TYPE_NONE <==> BodyPieces(done) == [])
    && (BodyPieces(done) != [] ==> HeadersSeen(done) != [])
    && if HeadersSeen(done) == [] then request.bodyLength == 0 && !request.chunked
       else
         && HeadersSeen(done) == [q] && Accepted(request.maxContentLength, q, BodyPieces(done))
         && request.bodyLength == Announced(q.contentLength) && request.chunked == q.flags.chunked
         && (request.bodyType == BODY_TYPE_TMPFILE ==> Announced(q.contentLength) > request.clientBodyBufferSize)
  }

  lemma {:induction false} FirstCalls(calls: seq<Event>, i: nat)
    requires i <= |calls|
    ensures BodyPieces(calls[..i]) <= BodyPieces(calls) && HeadersSeen(calls[..i]) <= HeadersSeen(calls)
    ensures Early(calls[..i]) ==> Early(calls)
    decreases |calls|
  {
    if i == |calls| {
      assert calls[..i] == calls;
    } else {
      assert calls[..|calls| - 1][..i] == calls[..i];
      FirstCalls(calls[..|calls| - 1], i);
    }
  }

  /** One callback more. */
  lemma OneCall(calls: seq<Event>, i: nat, q: Parser)
    requires i < |calls| && HeadersSeen(calls) == [q] && !Early(calls)
    ensures var done, more, e := calls[..i], calls[..i + 1], calls[i];
      && BodyPieces(more) == BodyPieces(done) + (if e.OnBody? then [e.data] else [])
      && BodyOf(more) == BodyOf(done) + (if e.OnBody? then e.data else [])
      && BodyPieces(more) <= BodyPieces(calls)
      && (if e.OnHeadersComplete? then e.seen == q && HeadersSeen(done) == [] && HeadersSeen(more) == [q]
          else HeadersSeen(more) == HeadersSeen(done))
      && (e.OnBody? ==> HeadersSeen(done) != [])
  {
    hide BodyPieces, BodyOf, HeadersSeen, Early;
    var done, e := calls[..i], calls[i];
    var more := done + [e];
    assert calls[..i + 1] == more;
    PiecesSnoc(done, e);
    BodySnoc(done, e);
    SeenSnoc(done, e);
    FirstCalls(calls, i + 1);
    if e.OnHeadersComplete? {
      assert HeadersSeen(more) == HeadersSeen(done) + [e.seen];
      assert |HeadersSeen(more)| <= 1;
      assert HeadersSeen(more)[0] == e.seen;
    }
  }

  lemma NoCalls()
    ensures BodyPieces([]) == [] && HeadersSeen([]) == [] && BodyOf([]) == []
  {}

  /** What has been refused is not taken with more to come. */
  lemma RefusedStays(max: nat, q: Parser, some: seq<seq<Byte>>, all: seq<seq<Byte>>)
    requires some <= all && !Accepted(max, q, some)
    ensures !Accepted(max, q, all)
  {
    FlattenPrefix(all, |some|);
    assert all[..|some|] == some;
  }

  /** The callbacks of one request, as the parser runs them, until one refuses; memory lasts. */
  method Deliver(calls: seq<Event>, request: Request, ghost q: Parser) returns (ret: int)
    requires request.Valid() && request.bodyType == BODY_TYPE_NONE && request.bodyLength == 0 && !request.chunked
    requires HeadersSeen(calls) == [q] && !Early(calls)
    modifies request
    ensures request.Valid() && (request.body == null || (fresh(request.body) && fresh(request.body.buf)))
    ensures ret == 0 <==> Accepted(request.maxContentLength, q, BodyPieces(calls))
    ensures ret == 0 ==> HeldSoFar(request, calls, q)
  {
    hide Flatten, BodyPieces, BodyOf, HeadersSeen, Early, Buffer.Valid;
    ret := 0;
    NoCalls();
    assert calls[..0] == [] && calls[..|calls|] == calls;
    for i := 0 to |calls|
      invariant request.Valid() && (request.body == null || (fresh(request.body) && fresh(request.body.buf)))
      invariant HeldSoFar(request, calls[..i], q)
    {
      ret := Call(calls, i, request, q);
      if ret != 0 { return; }
    }
  }

  /** One callback. */
  method Call(calls: seq<Event>, i: nat, request: Request, ghost q: Parser) returns (ret: int)
    requires i < |calls| && HeadersSeen(calls) == [q] && !Early(calls)
    requires request.Valid() && HeldSoFar(request, calls[..i], q)
    modifies request, request.body, if request.body != null then {request.body.buf} else {}
    ensures request.Valid() && (request.body == old(request.body) || fresh(request.body))
    ensures request.body != null ==>
      fresh(request.body.buf) || (old(request.body) != null && request.body.buf == old(request.body.buf))
    ensures if ret == 0 then HeldSoFar(request, calls[..i + 1], q)
            else !Accepted(request.maxContentLength, q, BodyPieces(calls))
  {
    hide Flatten, BodyPieces, HeadersSeen, Early, Buffer.Valid;
    ghost var max, now, all := request.maxContentLength, BodyPieces(calls[..i + 1]), BodyPieces(calls);
    OneCall(calls, i, q);
    var e := calls[i];
    ret := 0;
    if e.OnHeadersComplete? {
      ret := request.HeadersCompleteCb(e.seen.contentLength, e.seen.flags.chunked);
    } else if e.OnBody? {
      ret := request.BodyCb(e.data, true);
    }
    if ret != 0 { RefusedStays(max, q, now, all); }
  }

  /** The input that set_input_object makes of a request received. */
  method InputOf(request: Request) returns (input: Input)
    requires request.Valid() && request.bodyType != BODY_TYPE_TMPFILE && request.maxContentLength <= LIMIT_MAX
    requires request.bodyRead <= request.maxContentLength
    ensures input.Valid() && input.Rest() == request.Received() && fresh(input)
  {
    var buffer;
    if request.bodyType == BODY_TYPE_BUFFER {
      buffer := request.body;
    } else {
      buffer := new Buffer(0, 0);
    }
    input := new Input(buffer);
  }

  /** The calls have been answered as they are to be, by consecutive pieces of the body; left is what they leave. */
  ghost predicate HandedOut(ops: seq<Op>, outs: seq<seq<seq<Byte>>>, left: seq<Byte>, body: seq<Byte>) {
    (outs, left) == TakenByAll(ops, body) && Served(ops, outs, body) && FlattenAll(outs) + left == body
  }

  /** The callbacks of one request with the body body, then the application's calls on wsgi.input. */
  method Serve(calls: seq<Event>, request: Request, ops: seq<Op>, ghost q: Parser, ghost body: seq<Byte>)
    returns (ret: int, outs: seq<seq<seq<Byte>>>, ghost left: seq<Byte>)
    requires request.Valid() && request.bodyType == BODY_TYPE_NONE && request.bodyLength == 0 && !request.chunked
    requires OneRequest(calls, q, body) && request.maxContentLength <= LIMIT_MAX
    requires Announced(q.contentLength) <= request.clientBodyBufferSize
    modifies request
    ensures ret == 0 <==> Accepted(request.maxContentLength, q, BodyPieces(calls))
    ensures ret == 0 ==> HandedOut(ops, outs, left, body)
  {
    hide Flatten, BodyPieces, HeadersSeen, Early, Served, TakenByAll, Request.Valid, Buffer.Valid, Kept;
    outs, left := [], [];
    ret := Deliver(calls, request, q);
    if ret == 0 {
      var input := InputOf(request);
      outs := input.PerformAll(ops);
      left := input.Rest();
    }
  }

  /** Octets that lead up to the line feed at the end of the headers of one request, which announce n octets of body,
      0 being the same as none announced. */
  ghost predicate CountedHead(c: Conn, head: seq<Byte>, n: nat) {
    var e := Run(c, head);
    && e.stop.Go? && AtBlockEnd(e.p) && e.p.nread < MAX_HEADER_SIZE && InHead(e.trace)
    && Announced(e.p.contentLength) == n < ULLONG_MAX && !e.p.flags.chunked
    && !e.p.flags.trailing && !e.p.flags.upgrade && e.p.verb != CONNECT
  }

  /** The same, when they announce chunks. */
  ghost predicate ChunkedHead(c: Conn, head: seq<Byte>) {
    var e := Run(c, head);
    && e.stop.Go? && AtBlockEnd(e.p) && e.p.nread < MAX_HEADER_SIZE && InHead(e.trace)
    && e.p.contentLength == ULLONG_MAX && !e.p.setContentLength && e.p.flags.chunked
    && !e.p.flags.trailing && !e.p.flags.upgrade && e.p.verb != CONNECT
  }

  /** Any header lines with a Content-Length among them are such octets. */
  lemma BlockCounted(c: Conn, hs: seq<Header>)
    requires c.stop.Go? && c.p.state.HeaderFieldStart? && !c.p.setContentLength && c.p.verb != CONNECT
    requires InHead(c.trace) && IsBlock(hs) && HasLength(hs) && BlockLength(0, hs) < ULLONG_MAX
    requires var f := BlockFlags(c.p.flags, hs); !f.trailing && !f.chunked && !f.upgrade
    requires c.p.nread + |HeaderBlock(hs)| + 2 <= MAX_HEADER_SIZE
    ensures CountedHead(c, HeaderBlock(hs) + [CR], BlockLength(0, hs))
  {
    hide Run, Step, InHead, IsBlock, HasLength, BlockLength, BlockFlags, HeaderBlock, EmitLines;
    RunLines(c, hs);
    LengthStands(c.p.contentLength, 0, hs);
    RunSnoc(c, HeaderBlock(hs), CR);
    StepBlockCR(Run(c, HeaderBlock(hs)).p);
    HeadLines(c.trace, hs);
  }

  /** And so are those of a request in chunks. */
  lemma BlockChunked(c: Conn, hs: seq<Header>)
    requires c.stop.Go? && c.p.state.HeaderFieldStart? && !c.p.setContentLength && c.p.verb != CONNECT
    requires InHead(c.trace) && IsBlock(hs) && !HasLength(hs) && c.p.contentLength == ULLONG_MAX
    requires var f := BlockFlags(c.p.flags, hs); !f.trailing && f.chunked && !f.upgrade
    requires c.p.nread + |HeaderBlock(hs)| + 2 <= MAX_HEADER_SIZE
    ensures ChunkedHead(c, HeaderBlock(hs) + [CR])
  {
    hide Run, Step, InHead, IsBlock, HasLength, BlockLength, BlockFlags, HeaderBlock, EmitLines;
    RunLines(c, hs);
    NoLength(c.p.contentLength, hs);
    RunSnoc(c, HeaderBlock(hs), CR);
    StepBlockCR(Run(c, HeaderBlock(hs)).p);
    HeadLines(c.trace, hs);
  }

  /** The first octets of any whole request are such octets. */
  lemma RequestCounted(c: Conn, name: string, m: Method, t: seq<Byte>, major: seq<Byte>, minor: seq<Byte>,
                       hs: seq<Header>)
    requires c.stop.Go? && c.p.state.StartReq? && !c.p.setContentLength && InHead(c.trace)
    requires IsHead(name, m, t, major, minor, hs, c.p.nread) && m != CONNECT
    requires !exists h :: h in hs && (Chunked(h) || Upgrades(h))
    ensures CountedHead(c, Head(Octets(name), t, major, minor, hs), BlockLength(0, hs))
  {
    hide Run, InHead, IsHead, Head, HasLength, BlockLength, BlockFlags, EmitLines, Emit, Chunked, Upgrades;
    GoodBlock(name, m, t, major, minor, hs, c.p.nread);
    RunHead(c, name, m, t, major, minor, hs);
    BlockSays(NO_FLAGS, hs);
    Announces(hs);
    LineSeen(c.trace, t);
    HeadLines(Emit(Emit(c.trace, OnMessageBegin), OnUrl(t)), hs);
  }

  lemma RequestChunked(c: Conn, name: string, m: Method, t: seq<Byte>, major: seq<Byte>, minor: seq<Byte>,
                       hs: seq<Header>)
    requires c.stop.Go? && c.p.state.StartReq? && !c.p.setContentLength && InHead(c.trace)
    requires IsHead(name, m, t, major, minor, hs, c.p.nread) && m != CONNECT
    requires (exists h :: h in hs && Chunked(h)) && !HasLength(hs) && !exists h :: h in hs && Upgrades(h)
    ensures ChunkedHead(c, Head(Octets(name), t, major, minor, hs))
  {
    hide Run, InHead, IsHead, Head, HasLength, BlockLength, BlockFlags, EmitLines, Emit, Chunked, Upgrades;
    GoodBlock(name, m, t, major, minor, hs, c.p.nread);
    RunHead(c, name, m, t, major, minor, hs);
    BlockSays(NO_FLAGS, hs);
    Announces(hs);
    LineSeen(c.trace, t);
    HeadLines(Emit(Emit(c.trace, OnMessageBegin), OnUrl(t)), hs);
  }

  lemma LineSeen(t: seq<Event>, url: seq<Byte>)
    requires InHead(t)
    ensures InHead(Emit(Emit(t, OnMessageBegin), OnUrl(url)))
  {
    hide Emit, InHead;
    HeadLine(t, OnMessageBegin);
    HeadLine(Emit(t, OnMessageBegin), OnUrl(url));
  }

  /** A request without chunks held in memory.  Whatever octets lead up to its body, whatever the reads the stream
      arrived in and whatever the calls on wsgi.input: it is taken exactly if its body is not too long, and then
      the calls return consecutive pieces of exactly the octets the client sent as its body. */
  method ServeCounted(h: HttpParser, parts: seq<seq<Byte>>, maxContentLength: nat, clientBodyBufferSize: nat,
                      ops: seq<Op>, ghost head: seq<Byte>, ghost body: seq<Byte>)
    returns (ret: int, outs: seq<seq<seq<Byte>>>, ghost left: seq<Byte>)
    requires h.errno == OK && Reachable(Conn(h.View(), h.Trace(), Go, 0))
    requires CountedHead(Conn(h.View(), h.Trace(), Go, 0), head, |body|) && Flatten(parts) == head + [LF] + body
    requires forall i :: 0 <= i < |parts| ==> 0 < |parts[i]| < ULLONG_MAX
    requires |body| <= clientBodyBufferSize <= LIMIT_MAX && maxContentLength <= LIMIT_MAX
    modifies h
    ensures ret == 0 <==> |body| <= maxContentLength
    ensures ret == 0 ==> HandedOut(ops, outs, left, body)
    ensures var p := Run(Conn(old(h.View()), old(h.Trace()), Go, 0), head).p;
      ret == 0 ==> h.state == if Closing(p.httpMajor, p.httpMinor, p.flags) then Dead else StartReq
  {
    hide Flatten, Run, Emit, BodyPieces, BodyOf, Served, TakenByAll, RunParts, Joined, FlattenAll, InHead, OneRequest,
         AtBlockEnd;
    ghost var c := Conn(h.View(), h.Trace(), Go, 0);
    ghost var e := Run(c, head);
    ghost var q := AtEnd(e.p, 1);
    CountedBody(c, head, body, parts);
    BoundariesDoNotMatter(c, parts);
    var stopped, offset := ReadAll(h, parts);
    CountedCalls(e.trace, q, body);
    RequestJoined(h.calls, q, body);
    var request := new Request(maxContentLength, clientBodyBufferSize);
    WhenAccepted(maxContentLength, h.calls, q, body);
    ret, outs, left := Serve(h.calls, request, ops, q, body);
  }

  lemma CountedCalls(t: seq<Event>, q: Parser, body: seq<Byte>)
    requires InHead(t)
    ensures OneRequest(Completed(q, t, body, 0).trace, q, body)
  {
    hide Emit, InHead, OneRequest;
    HeadersEnd(t, q);
    var u := Emit(t, OnHeadersComplete(q));
    if body != [] { BodyComes(u, q, body); }
    OtherComes(if body == [] then u else Emit(u, OnBody(body)), OnMessageComplete, q, body);
  }

  lemma WhenAccepted(max: nat, calls: seq<Event>, q: Parser, body: seq<Byte>)
    requires OneRequest(calls, q, body) && (q.flags.chunked || Announced(q.contentLength) == |body|)
    requires Announced(q.contentLength) <= |body|
    ensures Accepted(max, q, BodyPieces(calls)) <==> |body| <= max
  {
    hide Flatten, BodyPieces, HeadersSeen, Early;
  }

  /** A request in chunks, whatever octets lead up to them and whatever sizes, extensions and trailer the client
      writes: the same. */
  method ServeChunked(h: HttpParser, parts: seq<seq<Byte>>, maxContentLength: nat, clientBodyBufferSize: nat,
                      ops: seq<Op>, ghost head: seq<Byte>, ghost ks: seq<ChunkText>, ghost z: LastText)
    returns (ret: int, outs: seq<seq<seq<Byte>>>, ghost left: seq<Byte>)
    requires h.errno == OK && Reachable(Conn(h.View(), h.Trace(), Go, 0))
    requires ChunkedHead(Conn(h.View(), h.Trace(), Go, 0), head) && (forall k :: k in ks ==> IsChunk(k)) && IsLast(z)
    requires Flatten(parts) == head + [LF] + ChunkWires(ks) + LastWire(z)
    requires forall i :: 0 <= i < |parts| ==> 0 < |parts[i]| < ULLONG_MAX
    requires clientBodyBufferSize <= LIMIT_MAX && maxContentLength <= LIMIT_MAX
    modifies h
    ensures var body := Flatten(Datas(ks));
      && (ret == 0 <==> |body| <= maxContentLength)
      && (ret == 0 ==> HandedOut(ops, outs, left, body))
    ensures var p := Run(Conn(old(h.View()), old(h.Trace()), Go, 0), head).p;
      ret == 0 ==> h.state == if ClosingBehind(p, z) then Dead else StartReq
  {
    hide Flatten, Run, Emit, BodyPieces, BodyOf, Served, TakenByAll, RunParts, Joined, FlattenAll, InHead, OneRequest,
         AtBlockEnd, ChunkWires, LastWire, IsChunk, IsLast, Datas, EmitLines, BlockFlags;
    ghost var c := Conn(h.View(), h.Trace(), Go, 0);
    ghost var e := Run(c, head);
    ghost var q := AtEnd(e.p, 1);
    ghost var body := Flatten(Datas(ks));
    ChunkedBody(c, head, ks, z, parts);
    BoundariesDoNotMatter(c, parts);
    var stopped, offset := ReadAll(h, parts);
    ChunkedCalls(e.trace, q, ks, z);
    RequestJoined(h.calls, q, body);
    var request := new Request(maxContentLength, clientBodyBufferSize);
    WhenAccepted(maxContentLength, h.calls, q, body);
    ret, outs, left := Serve(h.calls, request, ops, q, body);
  }

  lemma ChunkedCalls(t: seq<Event>, q: Parser, ks: seq<ChunkText>, z: LastText)
    requires InHead(t) && forall k :: k in ks ==> IsChunk(k)
    ensures OneRequest(ChunkedTrace(q, t, ks, z), q, Flatten(Datas(ks)))
  {
    hide Emit, InHead, OneRequest, EmitLines, Flatten, Datas, IsChunk;
    HeadersEnd(t, q);
    var u := Emit(t, OnHeadersComplete(q));
    var body := Flatten(Datas(ks));
    DataComes(ks);
    if ks != [] { BodyComes(u, q, body); }
    var v := if ks == [] then u else Emit(u, OnBody(body));
    LinesCome(v, z.trailer, q, body);
    OtherComes(EmitLines(v, z.trailer), OnMessageComplete, q, body);
  }

  lemma DataComes(ks: seq<ChunkText>)
    requires forall k :: k in ks ==> IsChunk(k)
    ensures Flatten(Datas(ks)) == [] <==> ks == []
  {
    if ks == [] {
      NothingAfter(Datas(ks));
      assert Datas(ks)[|Datas(ks)|..] == Datas(ks);
    } else {
      var front, last := Datas(ks[..|ks| - 1]), ks[|ks| - 1];
      assert last in ks;
      FlattenConcat(front, [last.data]);
      FlattenOne(last.data);
    }
  }
}
