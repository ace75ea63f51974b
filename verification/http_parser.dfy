/** http_parser_execute as it is written: fields updated in place, marks into the buffer, bodies taken in blocks.
    Every step is proved against the octet-by-octet description in HttpSpec. */
module HttpParsing {
  import opened Bytes
  import opened Pieces
  import opened HttpSpec
  import opened HttpSafety
  import opened HttpRuns

  /** The callback invocations, adjacent data callbacks of one kind joined. */
  function Joined(calls: seq<Event>): seq<Event> {
    if calls == [] then [] else Emit(Joined(calls[..|calls|-1]), calls[|calls|-1])
  }

  lemma JoinedSnoc(calls: seq<Event>, e: Event)
    ensures Joined(calls + [e]) == Emit(Joined(calls), e)
  {
    assert (calls + [e])[..|calls|] == calls;
  }

  /** A null mark. */
  const NULL := -1

  predicate MarkOk(mark: int, p: nat) {
    NULL <= mark <= p
  }

  /** The trace once the octets under each mark have been delivered. */
  function UrlDone(t: seq<Event>, mark: int, data: seq<Byte>, p: nat): seq<Event>
    requires MarkOk(mark, p) && p <= |data|
  {
    if mark == NULL then t else Emit(t, OnUrl(data[mark..p]))
  }

  function FieldDone(t: seq<Event>, mark: int, data: seq<Byte>, p: nat): seq<Event>
    requires MarkOk(mark, p) && p <= |data|
  {
    if mark == NULL then t else Emit(t, OnHeaderField(data[mark..p]))
  }

  function ValueDone(t: seq<Event>, mark: int, data: seq<Byte>, p: nat): seq<Event>
    requires MarkOk(mark, p) && p <= |data|
  {
    if mark == NULL then t else Emit(t, OnHeaderValue(data[mark..p]))
  }

  function BodyDone(t: seq<Event>, mark: int, data: seq<Byte>, p: nat): seq<Event>
    requires MarkOk(mark, p) && p <= |data|
  {
    if mark == NULL then t else Emit(t, OnBody(data[mark..p]))
  }

  /** The flush at the end of a buffer. */
  function Done(t: seq<Event>, um: int, fm: int, vm: int, bm: int, data: seq<Byte>, p: nat): seq<Event>
    requires MarkOk(um, p) && MarkOk(fm, p) && MarkOk(vm, p) && MarkOk(bm, p) && p <= |data|
  {
    BodyDone(UrlDone(ValueDone(FieldDone(t, fm, data, p), vm, data, p), um, data, p), bm, data, p)
  }

  lemma MarkGrows(t: seq<Event>, mark: nat, data: seq<Byte>, p: nat)
    requires mark <= p < |data|
    ensures Emit(UrlDone(t, mark, data, p), OnUrl([data[p]])) == UrlDone(t, mark, data, p + 1)
    ensures Emit(FieldDone(t, mark, data, p), OnHeaderField([data[p]])) == FieldDone(t, mark, data, p + 1)
    ensures Emit(ValueDone(t, mark, data, p), OnHeaderValue([data[p]])) == ValueDone(t, mark, data, p + 1)
  {
    hide Emit;
    assert data[mark..p] + [data[p]] == data[mark..p + 1];
    EmitTwice(t, OnUrl(data[mark..p]), OnUrl([data[p]]));
    EmitTwice(t, OnHeaderField(data[mark..p]), OnHeaderField([data[p]]));
    EmitTwice(t, OnHeaderValue(data[mark..p]), OnHeaderValue([data[p]]));
  }

  class HttpParser {
    var state: State
    var headerState: HeaderState
    var index: nat
    var nread: nat
    var contentLength: nat
    var setContentLength: bool
    var httpMajor: nat
    var httpMinor: nat
    var verb: Method
    var flags: Flags
    var upgrade: bool
    var errno: Errno
    /** The callbacks run so far, as the settings object sees them. */
    var calls: seq<Event>

    function View(): Parser
      reads this
    {
      Parser(state, headerState, index, nread, contentLength, setContentLength,
             httpMajor, httpMinor, verb, flags, upgrade, errno)
    }

    ghost function Trace(): seq<Event>
      reads this
    {
      Joined(calls)
    }

    /** http_parser_init for HTTP_REQUEST. */
    constructor ()
      ensures View() == Init() && calls == []
    {
      state, headerState, index, nread := StartReq, HGeneral, 0, 0;
      contentLength, setContentLength, httpMajor, httpMinor := 0, false, 0, 0;
      verb, flags, upgrade, errno, calls := DELETE, NO_FLAGS, false, OK, [];
    }

    method Callback(e: Event)
      modifies this`calls
      ensures calls == old(calls) + [e] && Trace() == Emit(old(Trace()), e)
    {
      calls := calls + [e];
      JoinedSnoc(old(calls), e);
    }

    /** s_start_req and s_dead. */
    method StartOctet(ch: Byte) returns (stop: Stop)
      requires state.Dead? || state.StartReq?
      modifies this
      ensures var o := StepStart(old(View()), ch);
        View() == o.p && stop == o.stop && Trace() == EmitCalls(old(Trace()), o.calls)
      ensures stop.Failed? || (stop.Go? && InStart(state))
      ensures stop.Failed? ==> calls == old(calls) && StepStart(old(View()), ch).calls == NoCall
    {
      hide MethodChar, Text, CharAt, Emit;
      stop := Go;
      if ch == CR || ch == LF {
        return;
      }
      if state.Dead? {
        errno := CLOSED_CONNECTION;
        return Failed;
      }
      flags := NO_FLAGS;
      contentLength := ULLONG_MAX;
      if !IsAlpha(ch) {
        errno := INVALID_METHOD;
        return Failed;
      }
      verb := DELETE;
      index := 1;
      if ch == 'C' as int { verb := CONNECT; }
      else if ch == 'D' as int { verb := DELETE; }
      else if ch == 'G' as int { verb := GET; }
      else if ch == 'H' as int { verb := HEAD; }
      else if ch == 'L' as int { verb := LOCK; }
      else if ch == 'M' as int { verb := MKCOL; }
      else if ch == 'N' as int { verb := NOTIFY; }
      else if ch == 'O' as int { verb := OPTIONS; }
      else if ch == 'P' as int { verb := POST; }
      else if ch == 'R' as int { verb := REPORT; }
      else if ch == 'S' as int { verb := SUBSCRIBE; }
      else if ch == 'T' as int { verb := TRACE; }
      else if ch == 'U' as int { verb := UNLOCK; }
      else {
        errno := INVALID_METHOD;
        return Failed;
      }
      state := ReqMethod;
      Callback(OnMessageBegin);
    }

    /** s_req_method; a "goto error" that set no errno ends as UNKNOWN. */
    method MethodOctet(ch: Byte) returns (stop: Stop)
      requires state.ReqMethod? && 1 <= index <= NameLength(verb)
      modifies this
      ensures var o := StepStart(old(View()), ch);
        View() == o.p && stop == o.stop && o.calls == NoCall && calls == old(calls)
      ensures stop.Failed? || (stop.Go? && (state.ReqMethod? || state.ReqSpacesBeforeUrl?))
    {
      hide Text, CharAt, NameLength;
      stop := Go;
      if ch == 0 {
        errno := INVALID_METHOD;
        return Failed;
      }
      var matcher := Text(verb);
      NameLengthIs(verb);
      assert index <= |matcher|;
      if ch == SP && CharAt(matcher, index) == 0 {
        state := ReqSpacesBeforeUrl;
      } else if ch == CharAt(matcher, index) {
      } else {
        stop := MethodSwitch(ch);
        if stop.Failed? { return; }
      }
      index := index + 1;
    }

    /** A letter the method at hand does not have there: perhaps that of another one. */
    method MethodSwitch(ch: Byte) returns (stop: Stop)
      requires state.ReqMethod? && ch != CharAt(Text(verb), index)
      modifies this`verb, this`errno
      ensures verb == MethodChar(old(verb), index, ch).0
      ensures stop == if MethodChar(old(verb), index, ch).1 == OK then Go else Failed
      ensures errno == if stop.Go? then old(errno) else MethodChar(old(verb), index, ch).1
    {
      hide Text, CharAt;
      stop := Go;
      if verb == CONNECT {
        if index == 1 && ch == 'H' as int { verb := CHECKOUT; }
        else if index == 2 && ch == 'P' as int { verb := COPY; }
        else { errno := UNKNOWN; return Failed; }
      } else if verb == MKCOL {
        if index == 1 && ch == 'O' as int { verb := MOVE; }
        else if index == 1 && ch == 'E' as int { verb := MERGE; }
        else if index == 1 && ch == '-' as int { verb := MSEARCH; }
        else if index == 2 && ch == 'A' as int { verb := MKACTIVITY; }
        else { errno := UNKNOWN; return Failed; }
      } else if verb == SUBSCRIBE {
        if index == 1 && ch == 'E' as int { verb := SEARCH; }
        else { errno := UNKNOWN; return Failed; }
      } else if index == 1 && verb == POST {
        if ch == 'R' as int { verb := PROPFIND; }
        else if ch == 'U' as int { verb := PUT; }
        else if ch == 'A' as int { verb := PATCH; }
        else { errno := UNKNOWN; return Failed; }
      } else if index == 2 {
        if verb == PUT {
          if ch == 'R' as int { verb := PURGE; }
        } else if verb == UNLOCK {
          if ch == 'S' as int { verb := UNSUBSCRIBE; }
        }
      } else if index == 4 && verb == PROPFIND && ch == 'P' as int {
        verb := PROPPATCH;
      } else {
        errno := INVALID_METHOD;
        return Failed;
      }
    }

    /** The url states: mark is url_mark. */
    method UrlOctet(data: seq<Byte>, p: nat, mark: int) returns (stop: Stop, mark': int)
      requires p < |data| && MarkOk(mark, p)
      requires state.ReqSpacesBeforeUrl? || InUrl(state)
      requires InUrl(state) <==> mark != NULL
      modifies this
      ensures MarkOk(mark', p + 1)
      ensures var o := StepUrl(old(View()), data[p]);
        View() == o.p && stop == o.stop
      ensures stop.Go? ==> (InUrl(state) <==> mark' != NULL)
      ensures stop.Go? ==>
        UrlDone(Trace(), mark', data, p + 1)
        == EmitCalls(UrlDone(old(Trace()), mark, data, p), StepUrl(old(View()), data[p]).calls)
      ensures !stop.Go? ==> calls == old(calls) && StepUrl(old(View()), data[p]).calls == NoCall
      ensures stop.Failed? || (stop.Go? && (state.ReqSpacesBeforeUrl? || InUrl(state) || state.ReqHttpStart?
        || state.ReqLineAlmostDone? || state.HeaderFieldStart?))
    {
      hide Emit, ParseUrlChar, Joined, NewMessage;
      var ch := data[p];
      stop, mark' := Go, mark;
      ParseUrlStays(state, ch);
      ParseUrlStays(ReqServerStart, ch);
      if mark != NULL { MarkGrows(Trace(), mark, data, p); }
      if state.ReqSpacesBeforeUrl? {
        if ch == SP { return; }
        if mark' == NULL { mark' := p; }
        assert data[p..p + 1] == [ch];
        if verb == CONNECT { state := ReqServerStart; }
        state := ParseUrlChar(state, ch);
      } else if state.ReqSchema? || state.ReqSchemaSlash? || state.ReqSchemaSlashSlash? || state.ReqServerStart? {
        if ch == SP || ch == CR || ch == LF {
          errno := INVALID_URL;
          return Failed, mark';
        }
        state := ParseUrlChar(state, ch);
      } else if ch == SP || ch == CR || ch == LF {
        UrlEnd(data, p, mark);
        mark' := NULL;
        return;
      } else {
        state := ParseUrlChar(state, ch);
      }
      if state.Dead? {
        errno := INVALID_URL;
        return Failed, mark';
      }
    }

    /** The octet after the url. */
    method UrlEnd(data: seq<Byte>, p: nat, mark: int)
      requires p < |data| && MarkOk(mark, p) && mark != NULL
      requires data[p] == SP || data[p] == CR || data[p] == LF
      requires InUrl(state) && !state.ReqSchema? && !state.ReqSchemaSlash? && !state.ReqSchemaSlashSlash?
        && !state.ReqServerStart?
      modifies this
      ensures Out(View(), NoCall, Go) == StepUrl(old(View()), data[p])
      ensures state.ReqHttpStart? || state.ReqLineAlmostDone? || state.HeaderFieldStart?
      ensures Trace() == UrlDone(old(Trace()), mark, data, p)
    {
      hide Emit, Joined, ParseUrlChar;
      if data[p] == SP {
        state := ReqHttpStart;
        Callback(OnUrl(data[mark..p]));
      } else {
        httpMajor, httpMinor := 0, 9;
        state := if data[p] == CR then ReqLineAlmostDone else HeaderFieldStart;
        Callback(OnUrl(data[mark..p]));
      }
    }

    /** From s_req_http_start to s_req_line_almost_done. */
    method VersionOctet(ch: Byte) returns (stop: Stop)
      requires InVersion(state)
      modifies this
      ensures var o := StepVersion(old(View()), ch);
        View() == o.p && stop == o.stop && o.calls == NoCall && calls == old(calls)
      ensures stop.Failed? || (stop.Go? && (InVersion(state) || state.HeaderFieldStart?))
    {
      stop := Go;
      if state.ReqHttpStart? {
        if ch == 'H' as int { state := ReqHttpH; }
        else if ch != SP { errno := INVALID_CONSTANT; return Failed; }
      } else if state.ReqHttpH? {
        stop := Expected(ch, 'T', ReqHttpHT);
      } else if state.ReqHttpHT? {
        stop := Expected(ch, 'T', ReqHttpHTT);
      } else if state.ReqHttpHTT? {
        stop := Expected(ch, 'P', ReqHttpHTTP);
      } else if state.ReqHttpHTTP? {
        stop := Expected(ch, '/', ReqFirstHttpMajor);
      } else if state.ReqLineAlmostDone? {
        if ch != LF { errno := LF_EXPECTED; return Failed; }
        state := HeaderFieldStart;
      } else {
        stop := VersionDigit(ch);
      }
    }

    /** STRICT_CHECK. */
    method Expected(ch: Byte, c: char, next: State) returns (stop: Stop)
      modifies this`state, this`errno
      ensures if ch == c as int then stop == Go && state == next && errno == old(errno)
              else stop == Failed && errno == STRICT && state == old(state)
    {
      if ch != c as int { errno := STRICT; return Failed; }
      state := next;
      return Go;
    }

    method VersionDigit(ch: Byte) returns (stop: Stop)
      requires state.ReqFirstHttpMajor? || state.ReqHttpMajor? || state.ReqFirstHttpMinor? || state.ReqHttpMinor?
      modifies this
      ensures var o := StepVersion(old(View()), ch);
        View() == o.p && stop == o.stop && o.calls == NoCall && calls == old(calls)
      ensures stop.Failed? || (stop.Go? && (InVersion(state) || state.HeaderFieldStart?))
    {
      stop := Go;
      if state.ReqFirstHttpMajor? {
        if ch < '1' as int || ch > '9' as int { errno := INVALID_VERSION; return Failed; }
        httpMajor := ch - '0' as int;
        state := ReqHttpMajor;
      } else if state.ReqHttpMajor? {
        if ch == '.' as int { state := ReqFirstHttpMinor; return; }
        if !IsNum(ch) { errno := INVALID_VERSION; return Failed; }
        httpMajor := httpMajor * 10;
        httpMajor := httpMajor + (ch - '0' as int);
        if httpMajor > 999 { errno := INVALID_VERSION; return Failed; }
      } else if state.ReqFirstHttpMinor? {
        if !IsNum(ch) { errno := INVALID_VERSION; return Failed; }
        httpMinor := ch - '0' as int;
        state := ReqHttpMinor;
      } else {
        if ch == CR { state := ReqLineAlmostDone; return; }
        if ch == LF { state := HeaderFieldStart; return; }
        if !IsNum(ch) { errno := INVALID_VERSION; return Failed; }
        httpMinor := httpMinor * 10;
        httpMinor := httpMinor + (ch - '0' as int);
        if httpMinor > 999 { errno := INVALID_VERSION; return Failed; }
      }
    }

    /** s_headers_almost_done, on_headers_complete, and s_headers_done on the same octet. */
    method HeadersEndOctet(ch: Byte) returns (stop: Stop)
      requires state.HeadersAlmostDone?
      modifies this
      ensures var o := StepHeadersEnd(old(View()), ch);
        View() == o.p && stop == o.stop && Trace() == EmitCalls(old(Trace()), o.calls)
        && (stop.Failed? ==> calls == old(calls) && o.calls == NoCall)
      ensures stop.Go? ==> state.StartReq? || state.Dead? || state.ChunkSizeStart? || state.BodyIdentity?
    {
      hide Emit;
      if ch != LF { errno := STRICT; return Failed; }
      if flags.trailing {
        state := NewMessage(View());
        Callback(OnMessageComplete);
        return Go;
      }
      state := HeadersDone;
      upgrade := flags.upgrade || verb == CONNECT;
      if setContentLength && flags.chunked {
        return Refused;
      }
      Callback(OnHeadersComplete(View()));
      stop := HeadersDoneOctet(ch);
    }

    method HeadersDoneOctet(ch: Byte) returns (stop: Stop)
      requires state.HeadersDone? && ch == LF
      modifies this
      ensures var o := StepHeadersDone(old(View()), ch);
        View() == o.p && stop == o.stop && Trace() == EmitCalls(old(Trace()), o.calls)
      ensures stop.Go? ==> state.StartReq? || state.Dead? || state.ChunkSizeStart? || state.BodyIdentity?
    {
      hide Emit;
      stop := Go;
      nread := 0;
      if upgrade {
        state := NewMessage(View());
        Callback(OnMessageComplete);
        return Upgraded;
      }
      if flags.chunked {
        state := ChunkSizeStart;
      } else if contentLength == 0 {
        state := NewMessage(View());
        Callback(OnMessageComplete);
      } else if contentLength != ULLONG_MAX {
        state := BodyIdentity;
      } else {
        state := NewMessage(View());
        Callback(OnMessageComplete);
      }
    }

    /** One letter along a known word. */
    method MatchLetter(word: string, c: Byte, done: HeaderState)
      requires word == Word(headerState)
      modifies this`headerState, this`index
      ensures (headerState, index) == Match(old(headerState), old(index), c, done)
    {
      hide Word;
      index := index + 1;
      if index > |word| || c != CharAt(word, index) {
        headerState := HGeneral;
      } else if index == |word| - 1 {
        headerState := done;
      }
    }

    /** The switch over header_state for an octet of a header name. */
    method FieldLetter(ch: Byte)
      requires FieldMatching(headerState) && Token(ch) != 0
      modifies this`headerState, this`index
      ensures (headerState, index) == FieldChar(old(headerState), old(index), ch)
    {
      hide Match;
      var c := Token(ch);
      if headerState.HC? {
        index := index + 1;
        headerState := if c == 'o' as int then HCO else HGeneral;
      } else if headerState.HCO? {
        index := index + 1;
        headerState := if c == 'n' as int then HCON else HGeneral;
      } else if headerState.HCON? {
        index := index + 1;
        if c == 'n' as int { headerState := HMatchingConnection; }
        else if c == 't' as int { headerState := HMatchingContentLength; }
        else { headerState := HGeneral; }
      } else if headerState.HMatchingConnection? {
        MatchLetter("connection", c, HConnection);
      } else if headerState.HMatchingProxyConnection? {
        MatchLetter("proxy-connection", c, HConnection);
      } else if headerState.HMatchingContentLength? {
        MatchLetter("content-length", c, HContentLength);
      } else if headerState.HMatchingTransferEncoding? {
        MatchLetter("Transfer-Encoding", ch, HTransferEncoding);
      } else if headerState.HMatchingUpgrade? {
        MatchLetter("upgrade", c, HUpgrade);
      } else if !headerState.HGeneral? {
        assert headerState.HConnection? || headerState.HContentLength? || headerState.HTransferEncoding?
          || headerState.HUpgrade?;
        if ch != SP { headerState := HGeneral; }
      }
    }

    /** s_header_field_start; mark' is header_field_mark. */
    method FieldStartOctet(data: seq<Byte>, p: nat) returns (stop: Stop, mark': int)
      requires p < |data| && state.HeaderFieldStart?
      modifies this
      ensures MarkOk(mark', p + 1)
      ensures var o := StepField(old(View()), data[p]);
        View() == o.p && stop == o.stop
        && FieldDone(Trace(), mark', data, p + 1) == EmitCalls(old(Trace()), o.calls)
      ensures stop.Go? ==> (state.HeaderField? <==> mark' != NULL)
      ensures !stop.Go? ==> mark' == NULL
      ensures stop.Failed? ==> calls == old(calls) && StepField(old(View()), data[p]).calls == NoCall
      ensures stop.Go? ==> (state.HeaderField? || state.HeadersAlmostDone? || state.StartReq? || state.Dead?
                            || state.ChunkSizeStart? || state.BodyIdentity?)
    {
      hide Emit, StepHeadersEnd;
      var ch := data[p];
      stop, mark' := Go, NULL;
      if ch == CR {
        state := HeadersAlmostDone;
        return;
      }
      if ch == LF {
        state := HeadersAlmostDone;
        stop := HeadersEndOctet(ch);
        return;
      }
      var c := Token(ch);
      if c == 0 {
        errno := INVALID_HEADER_TOKEN;
        return Failed, NULL;
      }
      mark' := p;
      assert data[p..p + 1] == [ch];
      index := 0;
      state := HeaderField;
      if c == 'c' as int { headerState := HC; }
      else if c == 'p' as int { headerState := HMatchingProxyConnection; }
      else if c == 't' as int { headerState := HMatchingTransferEncoding; }
      else if c == 'u' as int { headerState := HMatchingUpgrade; }
      else { headerState := HGeneral; }
    }

    method FieldOctet(data: seq<Byte>, p: nat, mark: int) returns (stop: Stop, mark': int)
      requires p < |data| && mark != NULL && MarkOk(mark, p)
      requires state.HeaderField? && FieldMatching(headerState)
      modifies this
      ensures MarkOk(mark', p + 1)
      ensures var o := StepField(old(View()), data[p]); View() == o.p && stop == o.stop
      ensures stop.Go? ==> (state.HeaderField? <==> mark' != NULL)
      ensures stop.Go? ==>
        FieldDone(Trace(), mark', data, p + 1)
        == EmitCalls(FieldDone(old(Trace()), mark, data, p), StepField(old(View()), data[p]).calls)
      ensures !stop.Go? ==> stop.Failed? && calls == old(calls) && StepField(old(View()), data[p]).calls == NoCall
      ensures stop.Go? ==>
        state.HeaderField? || state.HeaderValueStart? || state.HeaderAlmostDone? || state.HeaderFieldStart?
    {
      hide Emit, StepHeadersEnd, FieldChar;
      var ch := data[p];
      stop, mark' := Go, mark;
      MarkGrows(Trace(), mark, data, p);
      if Token(ch) != 0 {
        FieldLetter(ch);
        return;
      }
      if ch == ':' as int {
        state := HeaderValueStart;
      } else if ch == CR {
        state := HeaderAlmostDone;
      } else if ch == LF {
        state := HeaderFieldStart;
      } else {
        errno := INVALID_HEADER_TOKEN;
        return Failed, mark';
      }
      Callback(OnHeaderField(data[mark..p]));
      mark' := NULL;
    }

    /** s_header_value_start; mark' is header_value_mark. */
    method ValueStartOctet(data: seq<Byte>, p: nat) returns (stop: Stop, mark': int)
      requires p < |data| && state.HeaderValueStart?
      modifies this
      ensures MarkOk(mark', p + 1)
      ensures var o := StepValueStart(old(View()), data[p]); View() == o.p && stop == o.stop
      ensures stop.Go? ==> (state.HeaderValue? <==> mark' != NULL)
      ensures stop.Go? ==>
        ValueDone(Trace(), mark', data, p + 1) == EmitCalls(old(Trace()), StepValueStart(old(View()), data[p]).calls)
      ensures !stop.Go? ==> stop.Failed? && calls == old(calls) && StepValueStart(old(View()), data[p]).calls == NoCall
      ensures stop.Go? ==>
        state.HeaderValueStart? || state.HeaderValue? || state.HeaderAlmostDone? || state.HeaderFieldStart?
    {
      hide Emit;
      var ch := data[p];
      stop, mark' := Go, NULL;
      if ch == SP || ch == HT { return; }
      mark' := p;
      assert data[p..p + 1] == [ch] && data[p..p] == [];
      state := HeaderValue;
      index := 0;
      if ch == CR {
        headerState := HGeneral;
        state := HeaderAlmostDone;
        Callback(OnHeaderValue(data[mark'..p]));
        mark' := NULL;
        return;
      }
      if ch == LF {
        state := HeaderFieldStart;
        Callback(OnHeaderValue(data[mark'..p]));
        mark' := NULL;
        return;
      }
      var c := Lower(ch);
      if headerState.HUpgrade? {
        flags := flags.(upgrade := true);
        headerState := HGeneral;
      } else if headerState.HTransferEncoding? {
        headerState := if c == 'c' as int then HMatchingTransferEncodingChunked else HGeneral;
      } else if headerState.HContentLength? {
        if !IsNum(ch) || setContentLength {
          errno := INVALID_CONTENT_LENGTH;
          return Failed, mark';
        }
        contentLength := ch - '0' as int;
        setContentLength := true;
      } else if headerState.HConnection? {
        if c == 'k' as int { headerState := HMatchingConnectionKeepAlive; }
        else if c == 'c' as int { headerState := HMatchingConnectionClose; }
        else { headerState := HGeneral; }
      } else {
        headerState := HGeneral;
      }
    }

    /** The switch over header_state for an octet of a value other than a length. */
    method ValueLetter(ch: Byte)
      requires ValueMatching(headerState) && !headerState.HContentLength?
      modifies this`headerState, this`index
      ensures (headerState, index) == ValueChar(old(headerState), old(index), ch)
    {
      hide Match;
      var c := Lower(ch);
      if headerState.HMatchingTransferEncodingChunked? {
        MatchLetter("chunked", ch, HTransferEncodingChunked);
      } else if headerState.HMatchingConnectionKeepAlive? {
        MatchLetter("keep-alive", c, HConnectionKeepAlive);
      } else if headerState.HMatchingConnectionClose? {
        MatchLetter("close", c, HConnectionClose);
      } else if !headerState.HGeneral? {
        if ch != SP { headerState := HGeneral; }
      }
    }

    method ValueOctet(data: seq<Byte>, p: nat, mark: int) returns (stop: Stop, mark': int)
      requires p < |data| && mark != NULL && MarkOk(mark, p)
      requires state.HeaderValue? && ValueMatching(headerState)
      modifies this
      ensures MarkOk(mark', p + 1)
      ensures var o := StepValue(old(View()), data[p]); View() == o.p && stop == o.stop
      ensures stop.Go? ==> (state.HeaderValue? <==> mark' != NULL)
      ensures stop.Go? ==>
        ValueDone(Trace(), mark', data, p + 1)
        == EmitCalls(ValueDone(old(Trace()), mark, data, p), StepValue(old(View()), data[p]).calls)
      ensures !stop.Go? ==> stop.Failed? && calls == old(calls) && StepValue(old(View()), data[p]).calls == NoCall
      ensures stop.Go? ==> state.HeaderValue? || state.HeaderAlmostDone? || state.HeaderValueLws?
    {
      hide Emit, ValueChar;
      var ch := data[p];
      stop, mark' := Go, mark;
      MarkGrows(Trace(), mark, data, p);
      if ch == CR {
        state := HeaderAlmostDone;
        Callback(OnHeaderValue(data[mark..p]));
        mark' := NULL;
      } else if ch == LF {
        state := HeaderAlmostDone;
        Callback(OnHeaderValue(data[mark..p]));
        mark' := NULL;
        stop := LineEndOctet(ch);
      } else if headerState.HContentLength? {
        if ch == SP { return; }
        if !IsNum(ch) {
          errno := INVALID_CONTENT_LENGTH;
          return Failed, mark';
        }
        var t := Accumulate(contentLength, 10, ch - '0' as int);
        if Overflowed(contentLength, t) {
          errno := INVALID_CONTENT_LENGTH;
          return Failed, mark';
        }
        contentLength := t;
      } else {
        ValueLetter(ch);
      }
    }

    /** s_header_almost_done. */
    method LineEndOctet(ch: Byte) returns (stop: Stop)
      requires state.HeaderAlmostDone?
      modifies this
      ensures var o := StepLineEnd(old(View()), ch);
        View() == o.p && stop == o.stop && o.calls == NoCall && calls == old(calls)
      ensures stop.Failed? || (stop.Go? && state.HeaderValueLws?)
    {
      if ch != LF { errno := STRICT; return Failed; }
      state := HeaderValueLws;
      if headerState.HConnectionKeepAlive? { flags := flags.(keepAlive := true); }
      else if headerState.HConnectionClose? { flags := flags.(close := true); }
      else if headerState.HTransferEncodingChunked? { flags := flags.(chunked := true); }
      return Go;
    }

    /** From s_chunk_size_start to s_chunk_size_almost_done. */
    method ChunkHeadOctet(ch: Byte) returns (stop: Stop)
      requires InChunkHead(state) && flags.chunked
      requires state.ChunkSizeStart? ==> nread == 1
      modifies this
      ensures var o := StepChunk(old(View()), ch);
        View() == o.p && stop == o.stop && o.calls == NoCall && calls == old(calls)
      ensures stop.Failed? || (stop.Go? && (InChunkHead(state) || state.HeaderFieldStart? || state.ChunkData?))
    {
      stop := Go;
      if state.ChunkSizeStart? {
        var v := Unhex(ch);
        if v == -1 { errno := INVALID_CHUNK_SIZE; return Failed; }
        contentLength := v;
        state := ChunkSize;
      } else if state.ChunkSize? {
        if ch == CR { state := ChunkSizeAlmostDone; return; }
        var v := Unhex(ch);
        if v == -1 {
          if ch == ';' as int || ch == SP { state := ChunkParameters; return; }
          errno := INVALID_CHUNK_SIZE;
          return Failed;
        }
        var t := Accumulate(contentLength, 16, v);
        if Overflowed(contentLength, t) { errno := INVALID_CONTENT_LENGTH; return Failed; }
        contentLength := t;
      } else if state.ChunkParameters? {
        if ch == CR { state := ChunkSizeAlmostDone; }
      } else {
        if ch != LF { errno := STRICT; return Failed; }
        nread := 0;
        if contentLength == 0 {
          flags := flags.(trailing := true);
          state := HeaderFieldStart;
        } else {
          state := ChunkData;
        }
      }
    }

    /** The states after the data of a chunk; mark is body_mark, set if that data began in this buffer. */
    method ChunkEndOctet(data: seq<Byte>, p: nat, mark: int) returns (stop: Stop)
      requires p < |data| && MarkOk(mark, p)
      requires flags.chunked
      requires state.ChunkDataAlmostDone? || (state.ChunkDataDone? && mark == NULL)
      requires state.ChunkDataAlmostDone? ==> contentLength == 0
      modifies this
      ensures var o := StepBody(old(View()), data[p]);
        View() == o.p && stop == o.stop && o.calls == NoCall
      ensures stop.Go? ==>
        (state.ChunkDataDone? || state.ChunkSizeStart?) && Trace() == BodyDone(old(Trace()), mark, data, p)
      ensures !stop.Go? ==> stop.Failed? && calls == old(calls)
    {
      hide Emit;
      var ch := data[p];
      stop := Go;
      if state.ChunkDataAlmostDone? {
        if ch != CR { errno := STRICT; return Failed; }
        state := ChunkDataDone;
        if mark != NULL { Callback(OnBody(data[mark..p])); }
      } else {
        if ch != LF { errno := STRICT; return Failed; }
        nread := 0;
        state := ChunkSizeStart;
      }
    }

    /** s_body_identity and s_chunk_data: as much of the body as the buffer holds, in one go.
        A counted body that ends is handed over and completed; otherwise it stays under body_mark. */
    method BodyBlock(data: seq<Byte>, p: nat, ghost used: nat) returns (p': nat, mark: int)
      requires p < |data| && (state.BodyIdentity? || state.ChunkData?)
      requires 0 < contentLength < ULLONG_MAX
      modifies this
      ensures p < p' <= |data| && MarkOk(mark, p')
      ensures mark != NULL ==> state.ChunkDataAlmostDone? || (p' == |data| && (state.BodyIdentity? || state.ChunkData?))
      ensures mark == NULL ==> state.StartReq? || state.Dead?
      ensures Run(Conn(old(View()), old(Trace()), Go, used), data[p..p'])
        == Conn(View(), BodyDone(Trace(), mark, data, p'), Go, used + (p' - p))
    {
      hide Emit, Run, Step, ShouldKeepAlive, Joined, PhaseOf;
      var toRead := if contentLength < |data| - p then contentLength else |data| - p;
      p' := p + toRead;
      mark := p;
      ghost var c := Conn(View(), Trace(), Go, used);
      if toRead < contentLength {
        RunBodyPart(c, data[p..p']);
      } else {
        RunBody(c, data[p..p']);
      }
      contentLength := contentLength - toRead;
      if contentLength == 0 {
        if state.BodyIdentity? {
          Callback(OnBody(data[mark..p']));
          mark := NULL;
          state := NewMessage(View());
          Callback(OnMessageComplete);
        } else {
          state := ChunkDataAlmostDone;
        }
      }
    }

    /** Which marks are set between two octets. */
    ghost predicate MarksFit(p: nat, um: int, fm: int, vm: int, bm: int)
      reads this
    {
      && MarkOk(um, p) && MarkOk(fm, p) && MarkOk(vm, p) && MarkOk(bm, p)
      && (um != NULL <==> InUrl(state))
      && (fm != NULL <==> state.HeaderField?)
      && (vm != NULL <==> state.HeaderValue?)
    }

    /** The request line. */
    method LineOctet(data: seq<Byte>, p: nat, um: int) returns (stop: Stop, um': int)
      requires p < |data| && MarksFit(p, um, NULL, NULL, NULL)
      requires InStart(state) || state.ReqSpacesBeforeUrl? || InUrl(state) || InVersion(state)
      requires state.ReqMethod? ==> 1 <= index <= NameLength(verb)
      modifies this
      ensures var o := Dispatch(old(View()), data[p]);
        View() == o.p && stop == o.stop && !o.stop.Upgraded? && !o.stop.Refused?
      ensures MarkOk(um', p + 1)
      ensures stop.Go? ==> MarksFit(p + 1, um', NULL, NULL, NULL)
      ensures stop.Go? ==>
        UrlDone(Trace(), um', data, p + 1)
        == EmitCalls(UrlDone(old(Trace()), um, data, p), Dispatch(old(View()), data[p]).calls)
      ensures stop.Failed? ==> calls == old(calls) && Dispatch(old(View()), data[p]).calls == NoCall
    {
      hide StepStart, StepUrl, StepVersion, StepChunk, StepField, StepValueStart, StepValue, StepLineEnd,
           StepHeadersEnd, StepBody, Emit, Joined, NameLength;
      um' := um;
      if state.Dead? || state.StartReq? {
        stop := StartOctet(data[p]);
      } else if state.ReqMethod? {
        stop := MethodOctet(data[p]);
      } else if InVersion(state) {
        stop := VersionOctet(data[p]);
      } else {
        stop, um' := UrlOctet(data, p, um);
      }
    }

    /** The name part of header lines, and the end of the block. */
    method NameOctet(data: seq<Byte>, p: nat, fm: int) returns (stop: Stop, fm': int)
      requires p < |data| && MarksFit(p, NULL, fm, NULL, NULL)
      requires state.HeaderFieldStart? || state.HeaderField? || state.HeaderValueLws? || state.HeadersAlmostDone?
      requires state.HeaderField? ==> FieldMatching(headerState)
      modifies this
      ensures var o := Dispatch(old(View()), data[p]); View() == o.p && stop == o.stop
      ensures MarkOk(fm', p + 1)
      ensures stop.Go? ==> MarksFit(p + 1, NULL, fm', NULL, NULL)
      ensures stop.Go? ==>
        Done(Trace(), NULL, fm', NULL, NULL, data, p + 1)
        == EmitCalls(Done(old(Trace()), NULL, fm, NULL, NULL, data, p), Dispatch(old(View()), data[p]).calls)
      ensures stop.Failed? ==> calls == old(calls) && Dispatch(old(View()), data[p]).calls == NoCall
      ensures stop.Upgraded? || stop.Refused? ==>
        Trace() == EmitCalls(Done(old(Trace()), NULL, fm, NULL, NULL, data, p), Dispatch(old(View()), data[p]).calls)
    {
      hide StepStart, StepUrl, StepVersion, StepChunk, StepField, StepValueStart, StepValue, StepLineEnd,
           StepHeadersEnd, StepBody, Emit, Joined;
      var ch := data[p];
      stop, fm' := Go, fm;
      if state.HeaderFieldStart? {
        stop, fm' := FieldStartOctet(data, p);
      } else if state.HeaderField? {
        stop, fm' := FieldOctet(data, p, fm);
      } else if state.HeaderValueLws? {
        stop, fm' := LwsOctet(data, p, fm);
      } else {
        stop := HeadersEndOctet(ch);
      }
    }

    /** s_header_value_lws: a continuation line, or the next line. */
    method LwsOctet(data: seq<Byte>, p: nat, fm: int) returns (stop: Stop, fm': int)
      requires p < |data| && MarksFit(p, NULL, fm, NULL, NULL) && state.HeaderValueLws?
      modifies this
      ensures var o := Dispatch(old(View()), data[p]); View() == o.p && stop == o.stop
      ensures MarkOk(fm', p + 1)
      ensures stop.Go? ==> MarksFit(p + 1, NULL, fm', NULL, NULL)
      ensures stop.Go? ==>
        Done(Trace(), NULL, fm', NULL, NULL, data, p + 1)
        == EmitCalls(Done(old(Trace()), NULL, fm, NULL, NULL, data, p), Dispatch(old(View()), data[p]).calls)
      ensures stop.Failed? ==> calls == old(calls) && Dispatch(old(View()), data[p]).calls == NoCall
      ensures stop.Upgraded? || stop.Refused? ==>
        Trace() == EmitCalls(Done(old(Trace()), NULL, fm, NULL, NULL, data, p), Dispatch(old(View()), data[p]).calls)
    {
      hide StepStart, StepUrl, StepVersion, StepChunk, StepField, StepValueStart, StepValue, StepLineEnd,
           StepHeadersEnd, StepBody, Emit, Joined;
      stop, fm' := Go, fm;
      if data[p] == SP || data[p] == HT {
        state := HeaderValueStart;
      } else {
        state := HeaderFieldStart;
        stop, fm' := FieldStartOctet(data, p);
      }
    }

    /** The value part of header lines. */
    method ValuePartOctet(data: seq<Byte>, p: nat, vm: int) returns (stop: Stop, vm': int)
      requires p < |data| && MarksFit(p, NULL, NULL, vm, NULL)
      requires state.HeaderValueStart? || state.HeaderValue? || state.HeaderAlmostDone?
      requires state.HeaderValue? ==> ValueMatching(headerState)
      modifies this
      ensures var o := Dispatch(old(View()), data[p]); View() == o.p && stop == o.stop
      ensures MarkOk(vm', p + 1)
      ensures stop.Go? ==> MarksFit(p + 1, NULL, NULL, vm', NULL)
      ensures stop.Go? ==>
        Done(Trace(), NULL, NULL, vm', NULL, data, p + 1)
        == EmitCalls(Done(old(Trace()), NULL, NULL, vm, NULL, data, p), Dispatch(old(View()), data[p]).calls)
      ensures stop.Failed? ==> calls == old(calls) && Dispatch(old(View()), data[p]).calls == NoCall
      ensures !stop.Upgraded? && !stop.Refused?
    {
      hide StepStart, StepUrl, StepVersion, StepChunk, StepField, StepValueStart, StepValue, StepLineEnd,
           StepHeadersEnd, StepBody, Emit, Joined;
      var ch := data[p];
      stop, vm' := Go, vm;
      if state.HeaderValueStart? {
        stop, vm' := ValueStartOctet(data, p);
      } else if state.HeaderValue? {
        stop, vm' := ValueOctet(data, p, vm);
      } else {
        stop := LineEndOctet(ch);
      }
    }

    /** Chunk heads and chunk ends. */
    method ChunkOctet(data: seq<Byte>, p: nat, bm: int) returns (stop: Stop)
      requires p < |data| && MarksFit(p, NULL, NULL, NULL, bm)
      requires InChunkHead(state) || state.ChunkDataAlmostDone? || state.ChunkDataDone?
      requires bm != NULL ==> state.ChunkDataAlmostDone?
      requires flags.chunked
      requires state.ChunkSizeStart? ==> nread == 1
      requires state.ChunkDataAlmostDone? ==> contentLength == 0
      modifies this
      ensures var o := Dispatch(old(View()), data[p]);
        View() == o.p && stop == o.stop && !o.stop.Upgraded? && !o.stop.Refused? && o.calls == NoCall
      ensures stop.Go? ==>
        MarksFit(p + 1, NULL, NULL, NULL, NULL) && Trace() == BodyDone(old(Trace()), bm, data, p)
      ensures stop.Failed? ==> calls == old(calls)
    {
      hide StepStart, StepUrl, StepVersion, StepChunk, StepField, StepValueStart, StepValue, StepLineEnd,
           StepHeadersEnd, StepBody, Emit, Joined;
      if InChunkHead(state) {
        stop := ChunkHeadOctet(data[p]);
      } else {
        stop := ChunkEndOctet(data, p, bm);
      }
    }

    /** One octet outside a body: the header-size limit, then the state machine. */
    method Octet(data: seq<Byte>, p: nat, um: int, fm: int, vm: int, bm: int)
      returns (stop: Stop, um': int, fm': int, vm': int)
      requires p < |data| && MarksFit(p, um, fm, vm, bm)
      requires Valid(View()) && !state.BodyIdentity? && !state.ChunkData?
      requires bm != NULL ==> state.ChunkDataAlmostDone?
      modifies this
      ensures var o := Step(old(View()), data[p]); View() == o.p && stop == o.stop
      ensures MarkOk(um', p + 1) && MarkOk(fm', p + 1) && MarkOk(vm', p + 1)
      ensures stop.Go? ==> MarksFit(p + 1, um', fm', vm', NULL)
      ensures stop.Go? ==>
        Done(Trace(), um', fm', vm', NULL, data, p + 1)
        == EmitCalls(Done(old(Trace()), um, fm, vm, bm, data, p), Step(old(View()), data[p]).calls)
      ensures stop.Failed? ==> calls == old(calls) && Step(old(View()), data[p]).calls == NoCall
      ensures stop.Upgraded? || stop.Refused? ==>
        Trace() == EmitCalls(Done(old(Trace()), um, fm, vm, bm, data, p), Step(old(View()), data[p]).calls)
    {
      hide Dispatch, Emit, Joined;
      stop, um', fm', vm' := Go, um, fm, vm;
      if ParsingHeader(state) {
        nread := nread + 1;
        if nread > MAX_HEADER_SIZE {
          errno := HEADER_OVERFLOW;
          stop := Failed;
          return;
        }
      }
      if InStart(state) || state.ReqSpacesBeforeUrl? || InUrl(state) || InVersion(state) {
        stop, um' := LineOctet(data, p, um);
      } else if state.HeaderValueStart? || state.HeaderValue? || state.HeaderAlmostDone? {
        stop, vm' := ValuePartOctet(data, p, vm);
      } else if InHeaders(state) {
        stop, fm' := NameOctet(data, p, fm);
      } else {
        stop := ChunkOctet(data, p, bm);
      }
    }

    /** Between two steps of the loop: p octets of data taken, those under a mark still to be delivered. */
    ghost predicate Synced(c0: Conn, data: seq<Byte>, p: nat, um: int, fm: int, vm: int, bm: int)
      reads this
    {
      && p <= |data| && MarksFit(p, um, fm, vm, bm)
      && (bm != NULL ==> state.ChunkDataAlmostDone? || (p == |data| && (state.BodyIdentity? || state.ChunkData?)))
      && Run(c0, data[..p]) == Conn(View(), Done(Trace(), um, fm, vm, bm, data, p), Go, p)
    }

    /** One turn of the loop. */
    method Turn(ghost c0: Conn, data: seq<Byte>, p: nat, um: int, fm: int, vm: int, bm: int)
      returns (stop: Stop, p': nat, um': int, fm': int, vm': int, bm': int)
      requires p < |data| && Synced(c0, data, p, um, fm, vm, bm) && Reachable(c0)
      modifies this
      ensures stop.Go? ==> p < p' && Synced(c0, data, p', um', fm', vm', bm')
      ensures !stop.Go? ==>
        p' == p && Run(c0, data) == Conn(View(), Run(c0, data).trace, stop, if stop.Upgraded? then p + 1 else p)
      ensures stop.Upgraded? || stop.Refused? ==> Trace() == Run(c0, data).trace
      ensures stop.Failed? ==> Run(c0, data).trace == Done(Trace(), um, fm, vm, bm, data, p)
    {
      hide Run, Step, Emit, Joined, PhaseOf, Valid, Fits, Done;
      stop, p', um', fm', vm', bm' := Go, p, um, fm, vm, NULL;
      RunSafe(c0, data[..p]);
      if state.BodyIdentity? || state.ChunkData? {
        BodyCount(View());
        NothingDone(Trace(), data, p);
        p', bm' := BodyBlock(data, p, p);
        RunConcat(c0, data[..p], data[p..p']);
        assert data[..p] + data[p..p'] == data[..p'];
        BodyOnly(Trace(), bm', data, p');
      } else {
        RunSnoc(c0, data[..p], data[p]);
        assert data[..p] + [data[p]] == data[..p + 1];
        stop, um', fm', vm' := Octet(data, p, um, fm, vm, bm);
        if stop.Go? {
          p' := p + 1;
        } else {
          RunStopped(Run(c0, data[..p + 1]), data[p + 1..]);
          RunConcat(c0, data[..p + 1], data[p + 1..]);
          assert data[..p + 1] + data[p + 1..] == data;
        }
      }
    }

    /** The callbacks for what is left under a mark when the buffer ends: at most one of them runs. */
    method Flush(data: seq<Byte>, um: int, fm: int, vm: int, bm: int)
      requires MarksFit(|data|, um, fm, vm, bm)
      requires bm != NULL ==> state.ChunkDataAlmostDone? || state.BodyIdentity? || state.ChunkData?
      modifies this`calls
      ensures Trace() == Done(old(Trace()), um, fm, vm, bm, data, |data|)
    {
      hide Emit, Joined;
      var p := |data|;
      assert (if fm != NULL then 1 else 0) + (if vm != NULL then 1 else 0)
           + (if um != NULL then 1 else 0) + (if bm != NULL then 1 else 0) <= 1;
      if fm != NULL { Callback(OnHeaderField(data[fm..p])); }
      if vm != NULL { Callback(OnHeaderValue(data[vm..p])); }
      if um != NULL { Callback(OnUrl(data[um..p])); }
      if bm != NULL { Callback(OnBody(data[bm..p])); }
    }

    /** http_parser_execute, with callbacks that return 0. */
    method Execute(data: seq<Byte>) returns (n: int)
      requires errno == OK ==> Reachable(Conn(View(), Trace(), Go, 0))
      modifies this
      ensures old(errno) != OK ==> n == 0 && View() == old(View()) && calls == old(calls)
      // an end of file is an error inside a message
      ensures old(errno) == OK && data == [] ==>
        && calls == old(calls)
        && (if old(state).StartReq? || old(state).Dead? then n == 0 && View() == old(View())
            else n == 1 && View() == old(View()).(errno := INVALID_EOF_STATE))
      // octets: the same fields, callbacks and count as one octet at a time; an error keeps back at most the
      // octets still under a mark, those in front of the octet it comes at
      ensures old(errno) == OK && data != [] ==>
        var r := Run(Conn(old(View()), old(Trace()), Go, 0), data);
        && View() == r.p
        && n == (if r.stop.Refused? then ULLONG_MAX else r.used)
        && (r.stop.Go? ==> n == |data|)
        && (if r.stop.Failed? then KeptBack(Trace(), r.trace, data, r.used) else Trace() == r.trace)
    {
      hide Run, Step, Emit, Joined, PhaseOf, Valid, Fits, Done, KeptBack;
      if errno != OK { return 0; }
      if data == [] {
        if state.StartReq? || state.Dead? { return 0; }
        errno := INVALID_EOF_STATE;
        return 1;
      }
      ghost var c0 := Conn(View(), Trace(), Go, 0);
      var fm, vm, um, bm := NULL, NULL, NULL, NULL;
      if state.HeaderField? { fm := 0; }
      if state.HeaderValue? { vm := 0; }
      if InUrl(state) { um := 0; }
      NothingUnderMark(View(), Trace(), um, fm, vm, data);
      assert data[..0] == [];
      RunNothing(c0);
      var p := 0;
      while p < |data|
        invariant Synced(c0, data, p, um, fm, vm, bm)
      {
        ghost var um0, fm0, vm0, bm0 := um, fm, vm, bm;
        var stop;
        stop, p, um, fm, vm, bm := Turn(c0, data, p, um, fm, vm, bm);
        if !stop.Go? {
          if stop.Failed? { HeldBack(Trace(), um0, fm0, vm0, bm0, data, p); }
          if stop.Refused? { return ULLONG_MAX; }
          return if stop.Upgraded? then p + 1 else p;
        }
      }
      assert data[..p] == data;
      Flush(data, um, fm, vm, bm);
      return |data|;
    }
  }

  lemma BodyCount(p: Parser)
    requires Valid(p) && (p.state.BodyIdentity? || p.state.ChunkData?)
    ensures 0 < p.contentLength < ULLONG_MAX
  {
  }

  lemma NothingDone(t: seq<Event>, data: seq<Byte>, p: nat)
    requires p <= |data|
    ensures Done(t, NULL, NULL, NULL, NULL, data, p) == t
  {
  }

  lemma BodyOnly(t: seq<Event>, bm: int, data: seq<Byte>, p: nat)
    requires MarkOk(bm, p) && p <= |data|
    ensures Done(t, NULL, NULL, NULL, bm, data, p) == BodyDone(t, bm, data, p)
  {
  }

  /** A data callback with the octets d. */
  predicate Carries(e: Event, d: seq<Byte>) {
    (e.OnUrl? || e.OnHeaderField? || e.OnHeaderValue? || e.OnBody?) && e.data == d
  }

  /** The trace t is all of full, or lacks one data callback: that for the octets from some m on up to p. */
  ghost predicate KeptBack(t: seq<Event>, full: seq<Event>, data: seq<Byte>, p: nat)
  {
    full == t || exists m: nat, e: Event :: m <= p <= |data| && Carries(e, data[m..p]) && full == Emit(t, e)
  }

  /** At most one mark is set, so at most one event is held back. */
  lemma HeldBack(t: seq<Event>, um: int, fm: int, vm: int, bm: int, data: seq<Byte>, p: nat)
    requires MarkOk(um, p) && MarkOk(fm, p) && MarkOk(vm, p) && MarkOk(bm, p) && p <= |data|
    requires (if fm != NULL then 1 else 0) + (if vm != NULL then 1 else 0)
           + (if um != NULL then 1 else 0) + (if bm != NULL then 1 else 0) <= 1
    ensures KeptBack(t, Done(t, um, fm, vm, bm, data, p), data, p)
  {
    hide Emit;
    if fm != NULL {
      assert Carries(OnHeaderField(data[fm..p]), data[fm..p]);
    } else if vm != NULL {
      assert Carries(OnHeaderValue(data[vm..p]), data[vm..p]);
    } else if um != NULL {
      assert Carries(OnUrl(data[um..p]), data[um..p]);
    } else if bm != NULL {
      assert Carries(OnBody(data[bm..p]), data[bm..p]);
    }
  }

  /** Seen from the start of the stream. */
  lemma KeptBackFrom(t: seq<Event>, full: seq<Event>, before: seq<Byte>, data: seq<Byte>, p: nat, all: seq<Byte>)
    requires KeptBack(t, full, data, p) && before + data <= all
    ensures KeptBack(t, full, all, |before| + p)
  {
    hide Emit;
    if full != t {
      var m: nat, e: Event :| m <= p && Carries(e, data[m..p]) && full == Emit(t, e);
      assert all[|before| + m..|before| + p] == data[m..p];
    }
  }

  lemma EmitNothing(t: seq<Event>, e: Event)
    requires t != [] && SameData(t[|t|-1], e) && e.data == []
    ensures Emit(t, e) == t
  {
    assert t[|t|-1].data + [] == t[|t|-1].data;
  }

  lemma LastIs(t: seq<Event>)
    ensures PhaseOf(t).Url? ==> t != [] && t[|t|-1].OnUrl?
    ensures PhaseOf(t).Field? || PhaseOf(t).TrailerField? ==> t != [] && t[|t|-1].OnHeaderField?
    ensures PhaseOf(t).Value? || PhaseOf(t).TrailerValue? ==> t != [] && t[|t|-1].OnHeaderValue?
  {
  }

  /** Where a buffer starts under a mark, the octets before it have been delivered. */
  lemma NothingUnderMark(q: Parser, t: seq<Event>, um: int, fm: int, vm: int, data: seq<Byte>)
    requires Fits(q, PhaseOf(t))
    requires um == if InUrl(q.state) then 0 else NULL
    requires fm == if q.state.HeaderField? then 0 else NULL
    requires vm == if q.state.HeaderValue? then 0 else NULL
    ensures Done(t, um, fm, vm, NULL, data, 0) == t
  {
    hide Emit, PhaseOf;
    assert data[0..0] == [];
    LastIs(t);
    if um == 0 { EmitNothing(t, OnUrl([])); }
    if fm == 0 { EmitNothing(t, OnHeaderField([])); }
    if vm == 0 { EmitNothing(t, OnHeaderValue([])); }
  }

  lemma {:induction false} RunShift(c: Conn, data: seq<Byte>, k: nat)
    ensures Run(c.(used := c.used + k), data) == Run(c, data).(used := Run(c, data).used + k)
  {
    hide Step, EmitCalls;
    if data != [] {
      RunShift(c, data[..|data|-1], k);
    }
  }

  lemma {:induction false} StoppedAt(c: Conn, parts: seq<seq<Byte>>, i: nat)
    requires i <= |parts| && !RunParts(c, parts[..i]).stop.Go?
    ensures RunParts(c, parts) == RunParts(c, parts[..i])
    decreases |parts|
  {
    if i == |parts| {
      assert parts[..i] == parts;
    } else {
      var parts' := parts[..|parts|-1];
      assert parts'[..i] == parts[..i];
      StoppedAt(c, parts', i);
      RunStopped(RunParts(c, parts'), parts[|parts|-1]);
    }
  }

  lemma PartsNone(c: Conn, parts: seq<seq<Byte>>)
    requires parts == []
    ensures RunParts(c, parts) == c
  {
  }

  lemma PartsNext(c: Conn, parts: seq<seq<Byte>>, i: nat)
    requires i < |parts|
    ensures RunParts(c, parts[..i + 1]) == Run(RunParts(c, parts[..i]), parts[i])
  {
    assert parts[..i + 1][..i] == parts[..i];
  }

  /** The reader of a connection: one call per read, until the count or the parser says stop.  However the
      stream was cut, the fields, the callbacks and the offset at the end are those of one run over all of it. */
  method ReadAll(h: HttpParser, parts: seq<seq<Byte>>) returns (stopped: bool, offset: nat)
    requires h.errno == OK && Reachable(Conn(h.View(), h.Trace(), Go, 0))
    requires forall i :: 0 <= i < |parts| ==> 0 < |parts[i]| < ULLONG_MAX
    modifies h
    ensures var r := Run(Conn(old(h.View()), old(h.Trace()), Go, 0), Flatten(parts));
      && h.View() == r.p && stopped == !r.stop.Go?
      && (!r.stop.Refused? ==> offset == r.used)
      && (if r.stop.Failed? then KeptBack(h.Trace(), r.trace, Flatten(parts), r.used) else h.Trace() == r.trace)
  {
    hide Run, Step, Emit, Joined, PhaseOf, Fits, RunParts, Valid, Flatten, KeptBack;
    NothingAfter([]);
    assert parts[..0] == [];
    ghost var c0 := Conn(h.View(), h.Trace(), Go, 0);
    BoundariesDoNotMatter(c0, parts);
    offset := 0;
    assert RunParts(c0, parts[..0]) == c0 by { PartsNone(c0, parts[..0]); }
    for i := 0 to |parts|
      invariant RunParts(c0, parts[..i]) == Conn(h.View(), h.Trace(), Go, offset)
      invariant h.errno == OK && Reachable(Conn(h.View(), h.Trace(), Go, 0)) && offset == |Flatten(parts[..i])|
    {
      FlattenSnoc(parts, i);
      ghost var c := Conn(h.View(), h.Trace(), Go, 0);
      ghost var r := Run(c, parts[i]);
      RunSafe(c, parts[i]);
      RunShift(c, parts[i], offset);
      PartsNext(c0, parts, i);
      GoMeansReady(r);
      var n := h.Execute(parts[i]);
      offset := offset + n;
      if n != |parts[i]| || h.errno != OK || h.upgrade {
        StoppedAt(c0, parts, i + 1);
        PartPrefix(parts, i);
        if r.stop.Failed? { KeptBackFrom(h.Trace(), r.trace, Flatten(parts[..i]), parts[i], r.used, Flatten(parts)); }
        return true, offset;
      }
    }
    assert parts[..|parts|] == parts;
    stopped := false;
  }

  lemma PartPrefix(parts: seq<seq<Byte>>, i: nat)
    requires i < |parts|
    ensures Flatten(parts[..i]) + parts[i] <= Flatten(parts)
  {
    FlattenSnoc(parts, i);
    FlattenPrefix(parts, i + 1);
  }

  lemma GoMeansReady(c: Conn)
    requires Reachable(c)
    ensures c.stop.Go? ==> c.p.errno == OK && !c.p.upgrade && Reachable(c.(used := 0))
  {
  }
}
