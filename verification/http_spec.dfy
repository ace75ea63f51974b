/** What http_parser_execute does to the parser fields and which callbacks it runs, one octet at a time:
    no marks, no block copies and no buffer boundaries.  The class in http_parser.dfy is proved against it. */
module HttpSpec {
  import opened Bytes

  datatype State =
    | Dead | StartReq | ReqMethod | ReqSpacesBeforeUrl
    | ReqSchema | ReqSchemaSlash | ReqSchemaSlashSlash | ReqServerStart | ReqServer | ReqServerWithAt
    | ReqPath | ReqQueryStringStart | ReqQueryString | ReqFragmentStart | ReqFragment
    | ReqHttpStart | ReqHttpH | ReqHttpHT | ReqHttpHTT | ReqHttpHTTP
    | ReqFirstHttpMajor | ReqHttpMajor | ReqFirstHttpMinor | ReqHttpMinor | ReqLineAlmostDone
    | HeaderFieldStart | HeaderField | HeaderValueStart | HeaderValue | HeaderValueLws | HeaderAlmostDone
    | ChunkSizeStart | ChunkSize | ChunkParameters | ChunkSizeAlmostDone
    | HeadersAlmostDone | HeadersDone
    | ChunkData | ChunkDataAlmostDone | ChunkDataDone | BodyIdentity | MessageDone

  datatype HeaderState =
    | HGeneral | HC | HCO | HCON
    | HMatchingConnection | HMatchingProxyConnection | HMatchingContentLength
    | HMatchingTransferEncoding | HMatchingUpgrade
    | HConnection | HContentLength | HTransferEncoding | HUpgrade
    | HMatchingTransferEncodingChunked | HMatchingConnectionKeepAlive | HMatchingConnectionClose
    | HTransferEncodingChunked | HConnectionKeepAlive | HConnectionClose

  datatype Method =
    | DELETE | GET | HEAD | POST | PUT | CONNECT | OPTIONS | TRACE | COPY | LOCK | MKCOL | MOVE
    | PROPFIND | PROPPATCH | SEARCH | UNLOCK | REPORT | MKACTIVITY | CHECKOUT | MERGE | MSEARCH
    | NOTIFY | SUBSCRIBE | UNSUBSCRIBE | PATCH | PURGE

  datatype Errno =
    | OK | INVALID_EOF_STATE | HEADER_OVERFLOW | CLOSED_CONNECTION | INVALID_VERSION | INVALID_METHOD
    | INVALID_URL | LF_EXPECTED | INVALID_HEADER_TOKEN | INVALID_CONTENT_LENGTH | INVALID_CHUNK_SIZE
    | INVALID_CONSTANT | STRICT | UNKNOWN

  datatype Flags = Flags(chunked: bool, keepAlive: bool, close: bool, trailing: bool, upgrade: bool)

  datatype Parser = Parser(
    state: State, headerState: HeaderState, index: nat, nread: nat,
    contentLength: nat, setContentLength: bool,
    httpMajor: nat, httpMinor: nat, verb: Method,
    flags: Flags, upgrade: bool, errno: Errno)

  /** A callback invocation.  on_headers_complete may read the parser, so its event carries the fields. */
  datatype Event =
    | OnMessageBegin
    | OnUrl(data: seq<Byte>)
    | OnHeaderField(data: seq<Byte>)
    | OnHeaderValue(data: seq<Byte>)
    | OnHeadersComplete(seen: Parser)
    | OnBody(data: seq<Byte>)
    | OnMessageComplete

  /** Why a run no longer consumes octets: an error, the end of a message that asked for another protocol,
      or the return of -1 for a message with both Content-Length and chunked coding. */
  datatype Stop = Go | Failed | Upgraded | Refused

  const MAX_HEADER_SIZE: nat := 80 * 1024
  const NO_FLAGS := Flags(false, false, false, false, false)

  function Text(m: Method): string {
    match m
    case DELETE => "DELETE" case GET => "GET" case HEAD => "HEAD" case POST => "POST" case PUT => "PUT"
    case CONNECT => "CONNECT" case OPTIONS => "OPTIONS" case TRACE => "TRACE" case COPY => "COPY"
    case LOCK => "LOCK" case MKCOL => "MKCOL" case MOVE => "MOVE" case PROPFIND => "PROPFIND"
    case PROPPATCH => "PROPPATCH" case SEARCH => "SEARCH" case UNLOCK => "UNLOCK" case REPORT => "REPORT"
    case MKACTIVITY => "MKACTIVITY" case CHECKOUT => "CHECKOUT" case MERGE => "MERGE"
    case MSEARCH => "M - SEARCH" case NOTIFY => "NOTIFY" case SUBSCRIBE => "SUBSCRIBE"
    case UNSUBSCRIBE => "UNSUBSCRIBE" case PATCH => "PATCH" case PURGE => "PURGE"
  }

  /** http_parser_init for HTTP_REQUEST. */
  function Init(): Parser {
    Parser(StartReq, HGeneral, 0, 0, 0, false, 0, 0, DELETE, NO_FLAGS, false, OK)
  }

  predicate ParsingHeader(s: State) {
    !s.ChunkData? && !s.ChunkDataAlmostDone? && !s.ChunkDataDone? && !s.BodyIdentity? && !s.MessageDone?
  }

  /** The states in which http_parser_execute starts with url_mark set. */
  predicate InUrl(s: State) {
    s.ReqSchema? || s.ReqSchemaSlash? || s.ReqSchemaSlashSlash? || s.ReqServerStart? || s.ReqServer?
    || s.ReqServerWithAt? || s.ReqPath? || s.ReqQueryStringStart? || s.ReqQueryString?
    || s.ReqFragmentStart? || s.ReqFragment?
  }

  /** http_should_keep_alive for a request (which never needs an end of file to end its body). */
  predicate ShouldKeepAlive(p: Parser) {
    if p.httpMajor > 0 && p.httpMinor > 0 then !p.flags.close else p.flags.keepAlive
  }

  function NewMessage(p: Parser): State {
    if ShouldKeepAlive(p) then StartReq else Dead
  }

  /** base*v + d in uint64_t; Overflowed is the test the parser makes on it. */
  function Accumulate(v: nat, base: nat, d: nat): nat {
    (v * base + d) % (ULLONG_MAX + 1)
  }

  predicate Overflowed(v: nat, t: nat) {
    t < v || t == ULLONG_MAX
  }

  function ParseUrlChar(s: State, ch: Byte): State {
    if ch == SP || ch == CR || ch == LF || ch == HT || ch == 12 then Dead
    else match s
      case ReqSpacesBeforeUrl =>
        if ch == '/' as int || ch == '*' as int then ReqPath
        else if IsAlpha(ch) then ReqSchema else Dead
      case ReqSchema =>
        if IsAlpha(ch) then ReqSchema else if ch == ':' as int then ReqSchemaSlash else Dead
      case ReqSchemaSlash => if ch == '/' as int then ReqSchemaSlashSlash else Dead
      case ReqSchemaSlashSlash => if ch == '/' as int then ReqServerStart else Dead
      case ReqServerWithAt => if ch == '@' as int then Dead else ServerChar(ch)
      case ReqServerStart => ServerChar(ch)
      case ReqServer => ServerChar(ch)
      case ReqPath =>
        if IsUrlChar(ch) then ReqPath
        else if ch == '?' as int then ReqQueryStringStart
        else if ch == '#' as int then ReqFragmentStart else Dead
      case ReqQueryStringStart => QueryChar(ch)
      case ReqQueryString => QueryChar(ch)
      case ReqFragmentStart =>
        if IsUrlChar(ch) || ch == '?' as int then ReqFragment
        else if ch == '#' as int then ReqFragmentStart else Dead
      case ReqFragment =>
        if IsUrlChar(ch) || ch == '?' as int || ch == '#' as int then ReqFragment else Dead
      case _ => Dead
  }

  function ServerChar(ch: Byte): State {
    if ch == '/' as int then ReqPath
    else if ch == '?' as int then ReqQueryStringStart
    else if ch == '@' as int then ReqServerWithAt
    else if IsUserinfoChar(ch) || ch == '[' as int || ch == ']' as int then ReqServer
    else Dead
  }

  function QueryChar(ch: Byte): State {
    if IsUrlChar(ch) || ch == '?' as int then ReqQueryString
    else if ch == '#' as int then ReqFragmentStart else Dead
  }

  /** The first guess at the method, from its first letter; UNKNOWN stands for "no such letter". */
  function FirstMethod(ch: Byte): (Method, Errno) {
    if ch == 'C' as int then (CONNECT, OK) else if ch == 'D' as int then (DELETE, OK)
    else if ch == 'G' as int then (GET, OK) else if ch == 'H' as int then (HEAD, OK)
    else if ch == 'L' as int then (LOCK, OK) else if ch == 'M' as int then (MKCOL, OK)
    else if ch == 'N' as int then (NOTIFY, OK) else if ch == 'O' as int then (OPTIONS, OK)
    else if ch == 'P' as int then (POST, OK) else if ch == 'R' as int then (REPORT, OK)
    else if ch == 'S' as int then (SUBSCRIBE, OK) else if ch == 'T' as int then (TRACE, OK)
    else if ch == 'U' as int then (UNLOCK, OK) else (DELETE, INVALID_METHOD)
  }

  /** A further method letter at position index: the method it may now be, or the error. */
  function MethodChar(m: Method, index: nat, ch: Byte): (Method, Errno) {
    if ch == CharAt(Text(m), index) then (m, OK)
    else if m == CONNECT then
      if index == 1 && ch == 'H' as int then (CHECKOUT, OK)
      else if index == 2 && ch == 'P' as int then (COPY, OK) else (m, UNKNOWN)
    else if m == MKCOL then
      if index == 1 && ch == 'O' as int then (MOVE, OK)
      else if index == 1 && ch == 'E' as int then (MERGE, OK)
      else if index == 1 && ch == '-' as int then (MSEARCH, OK)
      else if index == 2 && ch == 'A' as int then (MKACTIVITY, OK) else (m, UNKNOWN)
    else if m == SUBSCRIBE then
      if index == 1 && ch == 'E' as int then (SEARCH, OK) else (m, UNKNOWN)
    else if index == 1 && m == POST then
      if ch == 'R' as int then (PROPFIND, OK)
      else if ch == 'U' as int then (PUT, OK)
      else if ch == 'A' as int then (PATCH, OK) else (m, UNKNOWN)
    else if index == 2 then
      (if m == PUT && ch == 'R' as int then PURGE
       else if m == UNLOCK && ch == 'S' as int then UNSUBSCRIBE else m, OK)
    else if index == 4 && m == PROPFIND && ch == 'P' as int then (PROPPATCH, OK)
    else (m, INVALID_METHOD)
  }

  /** The word a matching header state walks along. */
  function Word(h: HeaderState): string {
    match h
    case HMatchingConnection => "connection"
    case HMatchingProxyConnection => "proxy-connection"
    case HMatchingContentLength => "content-length"
    case HMatchingTransferEncoding => "Transfer-Encoding"
    case HMatchingUpgrade => "upgrade"
    case HMatchingTransferEncodingChunked => "chunked"
    case HMatchingConnectionKeepAlive => "keep-alive"
    case HMatchingConnectionClose => "close"
    case _ => ""
  }

  /** The matcher of state h: position index + 1 of its word must hold c; the last letter leads to done. */
  function Match(h: HeaderState, index: nat, c: Byte, done: HeaderState): (HeaderState, nat) {
    var i := index + 1;
    (if i > |Word(h)| || c != CharAt(Word(h), i) then HGeneral else if i == |Word(h)| - 1 then done else h, i)
  }

  function FieldStart(c: Byte): HeaderState {
    if c == 'c' as int then HC
    else if c == 'p' as int then HMatchingProxyConnection
    else if c == 't' as int then HMatchingTransferEncoding
    else if c == 'u' as int then HMatchingUpgrade
    else HGeneral
  }

  function FieldChar(h: HeaderState, index: nat, ch: Byte): (HeaderState, nat) {
    var c := Token(ch);
    match h
    case HC => (if c == 'o' as int then HCO else HGeneral, index + 1)
    case HCO => (if c == 'n' as int then HCON else HGeneral, index + 1)
    case HCON =>
      (if c == 'n' as int then HMatchingConnection
       else if c == 't' as int then HMatchingContentLength else HGeneral, index + 1)
    case HMatchingConnection => Match(h, index, c, HConnection)
    case HMatchingProxyConnection => Match(h, index, c, HConnection)
    case HMatchingContentLength => Match(h, index, c, HContentLength)
    case HMatchingTransferEncoding => Match(h, index, ch, HTransferEncoding)
    case HMatchingUpgrade => Match(h, index, c, HUpgrade)
    case HConnection => (if ch != SP then HGeneral else h, index)
    case HContentLength => (if ch != SP then HGeneral else h, index)
    case HTransferEncoding => (if ch != SP then HGeneral else h, index)
    case HUpgrade => (if ch != SP then HGeneral else h, index)
    case _ => (h, index)
  }

  /** The header states the field matcher may be in; any other trips the assert of s_header_field. */
  predicate FieldMatching(h: HeaderState) {
    h.HGeneral? || h.HC? || h.HCO? || h.HCON? || h.HMatchingConnection? || h.HMatchingProxyConnection?
    || h.HMatchingContentLength? || h.HMatchingTransferEncoding? || h.HMatchingUpgrade?
    || h.HConnection? || h.HContentLength? || h.HTransferEncoding? || h.HUpgrade?
  }

  /** The header state after the first octet of a value (Content-Length is handled apart). */
  function ValueStart(h: HeaderState, ch: Byte): HeaderState {
    var c := Lower(ch);
    match h
    case HTransferEncoding => if c == 'c' as int then HMatchingTransferEncodingChunked else HGeneral
    case HConnection =>
      if c == 'k' as int then HMatchingConnectionKeepAlive
      else if c == 'c' as int then HMatchingConnectionClose else HGeneral
    case HContentLength => HContentLength
    case _ => HGeneral
  }

  function ValueChar(h: HeaderState, index: nat, ch: Byte): (HeaderState, nat) {
    var c := Lower(ch);
    match h
    case HMatchingTransferEncodingChunked => Match(h, index, ch, HTransferEncodingChunked)
    case HMatchingConnectionKeepAlive => Match(h, index, c, HConnectionKeepAlive)
    case HMatchingConnectionClose => Match(h, index, c, HConnectionClose)
    case HTransferEncodingChunked => (if ch != SP then HGeneral else h, index)
    case HConnectionKeepAlive => (if ch != SP then HGeneral else h, index)
    case HConnectionClose => (if ch != SP then HGeneral else h, index)
    case HContentLength => (h, index)
    case _ => (HGeneral, index)
  }

  // ---------- one octet ----------

  /** The callbacks one octet runs; a data callback carries this octet only. */
  datatype Calls = NoCall | One(e: Event) | Two(first: Event, second: Event)

  datatype Out = Out(p: Parser, calls: Calls, stop: Stop)

  function Fail(p: Parser, e: Errno): Out {
    Out(p.(errno := e), NoCall, Failed)
  }

  function To(p: Parser, s: State): Out {
    Out(p.(state := s), NoCall, Go)
  }

  function Complete(p: Parser): Out {
    Out(p.(state := NewMessage(p)), One(OnMessageComplete), Go)
  }

  function StepStart(p: Parser, ch: Byte): Out
  {
    if p.state.Dead? then
      if ch == CR || ch == LF then Out(p, NoCall, Go) else Fail(p, CLOSED_CONNECTION)
    else if p.state.StartReq? then
      if ch == CR || ch == LF then Out(p, NoCall, Go)
      else
        var q := p.(flags := NO_FLAGS, contentLength := ULLONG_MAX);
        if !IsAlpha(ch) then Fail(q, INVALID_METHOD)
        else
          var (m, e) := FirstMethod(ch);
          var r := q.(verb := m, index := 1);
          if e != OK then Fail(r, e) else Out(r.(state := ReqMethod), One(OnMessageBegin), Go)
    else
      if ch == 0 then Fail(p, INVALID_METHOD)
      else if ch == SP && CharAt(Text(p.verb), p.index) == 0 then
        Out(p.(state := ReqSpacesBeforeUrl, index := p.index + 1), NoCall, Go)
      else
        var (m, e) := MethodChar(p.verb, p.index, ch);
        if e != OK then Fail(p, e) else Out(p.(verb := m, index := p.index + 1), NoCall, Go)
  }

  function StepUrlChar(p: Parser, from: State, ch: Byte): Out {
    var s := ParseUrlChar(from, ch);
    if s.Dead? then Fail(p.(state := Dead), INVALID_URL) else Out(p.(state := s), One(OnUrl([ch])), Go)
  }

  function StepUrl(p: Parser, ch: Byte): Out {
    match p.state
    case ReqSpacesBeforeUrl =>
      if ch == SP then Out(p, NoCall, Go)
      else StepUrlChar(p, if p.verb == CONNECT then ReqServerStart else ReqSpacesBeforeUrl, ch)
    case ReqSchema =>
      if ch == SP || ch == CR || ch == LF then Fail(p, INVALID_URL) else StepUrlChar(p, p.state, ch)
    case ReqSchemaSlash =>
      if ch == SP || ch == CR || ch == LF then Fail(p, INVALID_URL) else StepUrlChar(p, p.state, ch)
    case ReqSchemaSlashSlash =>
      if ch == SP || ch == CR || ch == LF then Fail(p, INVALID_URL) else StepUrlChar(p, p.state, ch)
    case ReqServerStart =>
      if ch == SP || ch == CR || ch == LF then Fail(p, INVALID_URL) else StepUrlChar(p, p.state, ch)
    case _ =>
      if ch == SP then To(p, ReqHttpStart)
      else if ch == CR then To(p.(httpMajor := 0, httpMinor := 9), ReqLineAlmostDone)
      else if ch == LF then To(p.(httpMajor := 0, httpMinor := 9), HeaderFieldStart)
      else StepUrlChar(p, p.state, ch)
  }

  function Expect(p: Parser, ch: Byte, c: char, s: State): Out {
    if ch != c as int then Fail(p, STRICT) else To(p, s)
  }

  function StepVersion(p: Parser, ch: Byte): Out {
    match p.state
    case ReqHttpStart =>
      if ch == 'H' as int then To(p, ReqHttpH)
      else if ch == SP then Out(p, NoCall, Go) else Fail(p, INVALID_CONSTANT)
    case ReqHttpH => Expect(p, ch, 'T', ReqHttpHT)
    case ReqHttpHT => Expect(p, ch, 'T', ReqHttpHTT)
    case ReqHttpHTT => Expect(p, ch, 'P', ReqHttpHTTP)
    case ReqHttpHTTP => Expect(p, ch, '/', ReqFirstHttpMajor)
    case ReqFirstHttpMajor =>
      if ch < '1' as int || ch > '9' as int then Fail(p, INVALID_VERSION)
      else To(p.(httpMajor := ch - '0' as int), ReqHttpMajor)
    case ReqHttpMajor =>
      if ch == '.' as int then To(p, ReqFirstHttpMinor)
      else if !IsNum(ch) then Fail(p, INVALID_VERSION)
      else
        var q := p.(httpMajor := p.httpMajor * 10 + (ch - '0' as int));
        if q.httpMajor > 999 then Fail(q, INVALID_VERSION) else Out(q, NoCall, Go)
    case ReqFirstHttpMinor =>
      if !IsNum(ch) then Fail(p, INVALID_VERSION) else To(p.(httpMinor := ch - '0' as int), ReqHttpMinor)
    case ReqHttpMinor =>
      if ch == CR then To(p, ReqLineAlmostDone)
      else if ch == LF then To(p, HeaderFieldStart)
      else if !IsNum(ch) then Fail(p, INVALID_VERSION)
      else
        var q := p.(httpMinor := p.httpMinor * 10 + (ch - '0' as int));
        if q.httpMinor > 999 then Fail(q, INVALID_VERSION) else Out(q, NoCall, Go)
    case _ =>
      if ch != LF then Fail(p, LF_EXPECTED) else To(p, HeaderFieldStart)
  }

  function StepField(p: Parser, ch: Byte): Out {
    var c := Token(ch);
    if p.state.HeaderFieldStart? then
      if ch == CR then To(p, HeadersAlmostDone)
      else if ch == LF then StepHeadersEnd(p.(state := HeadersAlmostDone), ch)
      else if c == 0 then Fail(p, INVALID_HEADER_TOKEN)
      else Out(p.(index := 0, state := HeaderField, headerState := FieldStart(c)), One(OnHeaderField([ch])), Go)
    else if c != 0 then
      var (h, i) := FieldChar(p.headerState, p.index, ch);
      Out(p.(headerState := h, index := i), One(OnHeaderField([ch])), Go)
    else if ch == ':' as int then To(p, HeaderValueStart)
    else if ch == CR then To(p, HeaderAlmostDone)
    else if ch == LF then To(p, HeaderFieldStart)
    else Fail(p, INVALID_HEADER_TOKEN)
  }

  function StepValueStart(p: Parser, ch: Byte): Out {
    if ch == SP || ch == HT then Out(p, NoCall, Go)
    else
      var q := p.(state := HeaderValue, index := 0);
      if ch == CR then Out(q.(headerState := HGeneral, state := HeaderAlmostDone), One(OnHeaderValue([])), Go)
      else if ch == LF then Out(q.(state := HeaderFieldStart), One(OnHeaderValue([])), Go)
      else if q.headerState.HContentLength? then
        if !IsNum(ch) || q.setContentLength then Fail(q, INVALID_CONTENT_LENGTH)
        else Out(q.(contentLength := ch - '0' as int, setContentLength := true), One(OnHeaderValue([ch])), Go)
      else
        var f := if q.headerState.HUpgrade? then q.flags.(upgrade := true) else q.flags;
        Out(q.(flags := f, headerState := ValueStart(q.headerState, ch)), One(OnHeaderValue([ch])), Go)
  }

  function StepValue(p: Parser, ch: Byte): Out {
    if ch == CR then To(p, HeaderAlmostDone)
    else if ch == LF then StepLineEnd(p.(state := HeaderAlmostDone), ch)
    else if p.headerState.HContentLength? then
      if ch == SP then Out(p, One(OnHeaderValue([ch])), Go)
      else if !IsNum(ch) then Fail(p, INVALID_CONTENT_LENGTH)
      else
        var t := Accumulate(p.contentLength, 10, ch - '0' as int);
        if Overflowed(p.contentLength, t) then Fail(p, INVALID_CONTENT_LENGTH)
        else Out(p.(contentLength := t), One(OnHeaderValue([ch])), Go)
    else
      var (h, i) := ValueChar(p.headerState, p.index, ch);
      Out(p.(headerState := h, index := i), One(OnHeaderValue([ch])), Go)
  }

  /** s_header_almost_done, where a recognised header takes effect. */
  function StepLineEnd(p: Parser, ch: Byte): Out {
    if ch != LF then Fail(p, STRICT)
    else
      var f := match p.headerState
        case HConnectionKeepAlive => p.flags.(keepAlive := true)
        case HConnectionClose => p.flags.(close := true)
        case HTransferEncodingChunked => p.flags.(chunked := true)
        case _ => p.flags;
      To(p.(flags := f), HeaderValueLws)
  }

  /** s_headers_almost_done and, in the same octet, s_headers_done. */
  function StepHeadersEnd(p: Parser, ch: Byte): Out {
    if ch != LF then Fail(p, STRICT)
    else if p.flags.trailing then Complete(p)
    else
      var q := p.(state := HeadersDone, upgrade := p.flags.upgrade || p.verb == CONNECT);
      if q.setContentLength && q.flags.chunked then Out(q, NoCall, Refused)
      else
        var o := StepHeadersDone(q, ch);
        Out(o.p, if o.calls.NoCall? then One(OnHeadersComplete(q))
          else Two(OnHeadersComplete(q), OnMessageComplete), o.stop)
  }

  function StepHeadersDone(p: Parser, ch: Byte): Out {
    if ch != LF then Fail(p, STRICT)
    else
      var q := p.(nread := 0);
      if q.upgrade then Complete(q).(stop := Upgraded)
      else if q.flags.chunked then To(q, ChunkSizeStart)
      else if q.contentLength == 0 || q.contentLength == ULLONG_MAX then Complete(q)
      else To(q, BodyIdentity)
  }

  function StepChunk(p: Parser, ch: Byte): Out {
    match p.state
    case ChunkSizeStart =>
      if Unhex(ch) == -1 then Fail(p, INVALID_CHUNK_SIZE)
      else To(p.(contentLength := Unhex(ch)), ChunkSize)
    case ChunkSize =>
      if ch == CR then To(p, ChunkSizeAlmostDone)
      else if Unhex(ch) == -1 then
        if ch == ';' as int || ch == SP then To(p, ChunkParameters) else Fail(p, INVALID_CHUNK_SIZE)
      else
        var t := Accumulate(p.contentLength, 16, Unhex(ch));
        if Overflowed(p.contentLength, t) then Fail(p, INVALID_CONTENT_LENGTH)
        else Out(p.(contentLength := t), NoCall, Go)
    case ChunkParameters =>
      if ch == CR then To(p, ChunkSizeAlmostDone) else Out(p, NoCall, Go)
    case _ =>
      if ch != LF then Fail(p, STRICT)
      else
        var q := p.(nread := 0);
        if q.contentLength == 0 then To(q.(flags := q.flags.(trailing := true)), HeaderFieldStart)
        else To(q, ChunkData)
  }

  function StepBody(p: Parser, ch: Byte): Out {
    match p.state
    case BodyIdentity =>
      if p.contentLength <= 1 then
        var q := p.(contentLength := 0);
        Out(q.(state := NewMessage(q)), Two(OnBody([ch]), OnMessageComplete), Go)
      else Out(p.(contentLength := p.contentLength - 1), One(OnBody([ch])), Go)
    case ChunkData =>
      if p.contentLength <= 1 then
        Out(p.(contentLength := 0, state := ChunkDataAlmostDone), One(OnBody([ch])), Go)
      else Out(p.(contentLength := p.contentLength - 1), One(OnBody([ch])), Go)
    case ChunkDataAlmostDone => if ch != CR then Fail(p, STRICT) else To(p, ChunkDataDone)
    case ChunkDataDone =>
      if ch != LF then Fail(p, STRICT) else To(p.(nread := 0), ChunkSizeStart)
    case _ => Complete(p)
  }

  predicate InStart(s: State) { s.Dead? || s.StartReq? || s.ReqMethod? }

  predicate InVersion(s: State) {
    s.ReqHttpStart? || s.ReqHttpH? || s.ReqHttpHT? || s.ReqHttpHTT? || s.ReqHttpHTTP? || s.ReqFirstHttpMajor?
    || s.ReqHttpMajor? || s.ReqFirstHttpMinor? || s.ReqHttpMinor? || s.ReqLineAlmostDone?
  }

  predicate InChunkHead(s: State) {
    s.ChunkSizeStart? || s.ChunkSize? || s.ChunkParameters? || s.ChunkSizeAlmostDone?
  }

  function Dispatch(p: Parser, ch: Byte): Out {
    if InStart(p.state) then StepStart(p, ch)
    else if p.state.ReqSpacesBeforeUrl? || InUrl(p.state) then StepUrl(p, ch)
    else if InVersion(p.state) then StepVersion(p, ch)
    else if InChunkHead(p.state) then StepChunk(p, ch)
    else match p.state
      case HeaderFieldStart => StepField(p, ch)
      case HeaderField => StepField(p, ch)
      case HeaderValueStart => StepValueStart(p, ch)
      case HeaderValue => StepValue(p, ch)
      case HeaderAlmostDone => StepLineEnd(p, ch)
      case HeaderValueLws =>
        if ch == SP || ch == HT then To(p, HeaderValueStart)
        else StepField(p.(state := HeaderFieldStart), ch)
      case HeadersAlmostDone => StepHeadersEnd(p, ch)
      case HeadersDone => StepHeadersDone(p, ch)
      case _ => StepBody(p, ch)
  }

  /** One octet, with the header-size limit in front of the state machine. */
  function Step(p: Parser, ch: Byte): Out {
    if ParsingHeader(p.state) then
      var q := p.(nread := p.nread + 1);
      if q.nread > MAX_HEADER_SIZE then Fail(q, HEADER_OVERFLOW) else Dispatch(q, ch)
    else Dispatch(p, ch)
  }

  // ---------- traces and runs ----------

  predicate SameData(a: Event, b: Event) {
    (a.OnUrl? && b.OnUrl?) || (a.OnHeaderField? && b.OnHeaderField?)
    || (a.OnHeaderValue? && b.OnHeaderValue?) || (a.OnBody? && b.OnBody?)
  }

  /** A trace with one more event; adjacent data callbacks of one kind are one event. */
  function Emit(t: seq<Event>, e: Event): seq<Event> {
    if t != [] && SameData(t[|t|-1], e) then
      t[..|t|-1] + [t[|t|-1].(data := t[|t|-1].data + e.data)]
    else t + [e]
  }

  function EmitCalls(t: seq<Event>, calls: Calls): seq<Event> {
    match calls
    case NoCall => t
    case One(e) => Emit(t, e)
    case Two(first, second) => Emit(Emit(t, first), second)
  }

  /** A connection as the reader of it sees it: parser, joined trace, why it stopped, octets consumed. */
  datatype Conn = Conn(p: Parser, trace: seq<Event>, stop: Stop, used: nat)

  function Advance(c: Conn, ch: Byte): Conn {
    if c.stop != Go then c
    else
      var o := Step(c.p, ch);
      Conn(o.p, EmitCalls(c.trace, o.calls), o.stop, if o.stop.Go? || o.stop.Upgraded? then c.used + 1 else c.used)
  }

  function Run(c: Conn, data: seq<Byte>): Conn {
    if data == [] then c else Advance(Run(c, data[..|data|-1]), data[|data|-1])
  }
}
