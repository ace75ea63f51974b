/** What every reachable parser satisfies: the C asserts, the matcher bounds, the header-size limit,
    and the order in which callbacks can run. */
module HttpSafety {
  import opened Bytes
  import opened HttpSpec

  function NameLength(m: Method): nat {
    match m
    case GET => 3 case PUT => 3
    case HEAD => 4 case POST => 4 case COPY => 4 case LOCK => 4 case MOVE => 4
    case TRACE => 5 case MKCOL => 5 case MERGE => 5 case PATCH => 5 case PURGE => 5
    case DELETE => 6 case SEARCH => 6 case UNLOCK => 6 case REPORT => 6 case NOTIFY => 6
    case CONNECT => 7 case OPTIONS => 7
    case PROPFIND => 8 case CHECKOUT => 8
    case PROPPATCH => 9 case SUBSCRIBE => 9
    case MKACTIVITY => 10 case MSEARCH => 10
    case UNSUBSCRIBE => 11
  }

  lemma NameLengthIs(m: Method)
    ensures NameLength(m) == |Text(m)|
  {
  }

  function WordLength(h: HeaderState): nat {
    match h
    case HMatchingConnection => 10
    case HMatchingProxyConnection => 16
    case HMatchingContentLength => 14
    case HMatchingTransferEncoding => 17
    case HMatchingUpgrade => 7
    case HMatchingTransferEncodingChunked => 7
    case HMatchingConnectionKeepAlive => 10
    case HMatchingConnectionClose => 5
    case _ => 0
  }

  lemma WordLengthIs(h: HeaderState)
    ensures WordLength(h) == |Word(h)|
  {
  }

  /** A matcher always has at least its last letter in front of it. */
  predicate MatcherInside(h: HeaderState, index: nat) {
    && (h.HC? ==> index == 0) && (h.HCO? ==> index == 1) && (h.HCON? ==> index == 2)
    && (WordLength(h) != 0 ==> index + 1 < WordLength(h))
  }

  /** The header states s_header_value can be in. */
  predicate ValueMatching(h: HeaderState) {
    h.HGeneral? || h.HContentLength? || h.HMatchingTransferEncodingChunked? || h.HMatchingConnectionKeepAlive?
    || h.HMatchingConnectionClose? || h.HTransferEncodingChunked? || h.HConnectionKeepAlive? || h.HConnectionClose?
  }

  predicate InHeaders(s: State) {
    s.HeaderFieldStart? || s.HeaderField? || s.HeaderValueStart? || s.HeaderValue?
    || s.HeaderAlmostDone? || s.HeaderValueLws? || s.HeadersAlmostDone?
  }

  predicate InChunked(s: State) {
    InChunkHead(s) || s.ChunkData? || s.ChunkDataAlmostDone? || s.ChunkDataDone?
  }

  /** The asserts of http_parser_execute and what they rest on. */
  predicate Valid(p: Parser) {
    && p.errno == OK && !p.upgrade
    && p.nread <= MAX_HEADER_SIZE
    && p.contentLength <= ULLONG_MAX
    && p.httpMajor <= 999 && p.httpMinor <= 999
    && !p.state.HeadersDone? && !p.state.MessageDone?
    && (p.flags.trailing ==> p.flags.chunked && (InHeaders(p.state) || p.state.StartReq? || p.state.Dead?))
    && (InChunked(p.state) ==> p.flags.chunked)
    && MatcherValid(p)
    && LengthValid(p)
  }

  /** Every matcher index is inside its string. */
  predicate MatcherValid(p: Parser) {
    && (p.state.ReqMethod? ==> 1 <= p.index <= NameLength(p.verb))
    && (p.state.HeaderField? ==> FieldMatching(p.headerState) && MatcherInside(p.headerState, p.index))
    && (p.state.HeaderValue? ==> ValueMatching(p.headerState) && MatcherInside(p.headerState, p.index))
  }

  /** What content_length and nread are where the code asserts or relies on it. */
  predicate LengthValid(p: Parser) {
    && (p.state.ChunkSizeStart? ==> p.nread == 0)
    && (p.state.ChunkSize? || p.state.ChunkParameters? || p.state.ChunkSizeAlmostDone? ==> p.contentLength < ULLONG_MAX)
    && (p.state.ChunkData? || p.state.BodyIdentity? ==> 0 < p.contentLength < ULLONG_MAX)
    && (p.state.ChunkDataAlmostDone? ==> p.contentLength == 0)
  }

  /** Where in (begin url (field value)* headers_complete body* (field value)* complete)* a trace stands.
      Adjacent data callbacks of one kind are joined, so "+" of the callbacks is one event here. */
  datatype Phase = Idle | Begun | Url | Field | Value | Body | TrailerField | TrailerValue | Wrong

  function Next(ph: Phase, e: Event): Phase {
    match e
    case OnMessageBegin => if ph == Idle then Begun else Wrong
    case OnUrl(_) => if ph == Begun || ph == Url then Url else Wrong
    case OnHeaderField(_) =>
      if ph == Url || ph == Field || ph == Value then Field
      else if ph == Body || ph == TrailerField || ph == TrailerValue then TrailerField else Wrong
    case OnHeaderValue(_) =>
      if ph == Field || ph == Value then Value
      else if ph == TrailerField || ph == TrailerValue then TrailerValue else Wrong
    case OnHeadersComplete(_) => if ph == Url || ph == Field || ph == Value then Body else Wrong
    case OnBody(_) => if ph == Body then Body else Wrong
    case OnMessageComplete => if ph == Body || ph == TrailerField || ph == TrailerValue then Idle else Wrong
  }

  function PhaseOf(t: seq<Event>): Phase {
    if t == [] then Idle else Next(PhaseOf(t[..|t|-1]), t[|t|-1])
  }

  function PhaseAfter(ph: Phase, calls: Calls): Phase {
    match calls
    case NoCall => ph
    case One(e) => Next(ph, e)
    case Two(first, second) => Next(Next(ph, first), second)
  }

  /** The place in that order each parser state stands for. */
  predicate Fits(p: Parser, ph: Phase) {
    && (p.state.Dead? || p.state.StartReq? ==> ph.Idle?)
    && (p.state.ReqMethod? || p.state.ReqSpacesBeforeUrl? ==> ph.Begun?)
    && (InUrl(p.state) || InVersion(p.state) ==> ph.Url?)
    && (InHeaders(p.state) ==> if p.flags.trailing then FitsTrailer(p.state, ph) else FitsHead(p.state, ph))
    && (InChunked(p.state) || p.state.BodyIdentity? ==> ph.Body?)
  }

  predicate FitsHead(s: State, ph: Phase) {
    if s.HeaderField? then ph.Field?
    else if s.HeaderValue? then ph.Value?
    else ph.Field? || ph.Value? || ((s.HeaderFieldStart? || s.HeadersAlmostDone?) && ph.Url?)
  }

  predicate FitsTrailer(s: State, ph: Phase) {
    if s.HeaderField? then ph.TrailerField?
    else if s.HeaderValue? then ph.TrailerValue?
    else ph.TrailerField? || ph.TrailerValue? || ((s.HeaderFieldStart? || s.HeadersAlmostDone?) && ph.Body?)
  }

  /** What one octet must keep: the invariant if the run goes on, and an order of callbacks that fits the new state. */
  predicate Keeps(o: Out) {
    && (o.stop.Go? ==> Valid(o.p))
    && (o.stop.Failed? <==> o.p.errno != OK)
    && (o.stop.Upgraded? ==> o.p.upgrade)
  }

  predicate InOrder(ph: Phase, o: Out) {
    && PhaseAfter(ph, o.calls) != Wrong
    && (o.stop.Go? ==> Fits(o.p, PhaseAfter(ph, o.calls)))
  }

  lemma StartKeeps(p: Parser, ch: Byte)
    requires Valid(p) && InStart(p.state)
    ensures Keeps(StepStart(p, ch))
  {
    NameLengthIs(p.verb);
  }

  lemma ParseUrlStays(s: State, ch: Byte)
    ensures ParseUrlChar(s, ch).Dead? || InUrl(ParseUrlChar(s, ch))
  {
  }

  lemma UrlCharKeeps(p: Parser, from: State, ch: Byte)
    requires Valid(p) && (p.state.ReqSpacesBeforeUrl? || InUrl(p.state))
    ensures Keeps(StepUrlChar(p, from, ch))
  {
    hide ParseUrlChar;
    ParseUrlStays(from, ch);
  }

  lemma UrlKeeps(p: Parser, ch: Byte)
    requires Valid(p) && (p.state.ReqSpacesBeforeUrl? || InUrl(p.state))
    ensures Keeps(StepUrl(p, ch))
  {
    hide ParseUrlChar, StepUrlChar;
    UrlCharKeeps(p, p.state, ch);
    UrlCharKeeps(p, ReqServerStart, ch);
  }

  lemma VersionKeeps(p: Parser, ch: Byte)
    requires Valid(p) && InVersion(p.state)
    ensures Keeps(StepVersion(p, ch))
  {
  }

  lemma ChunkHeadKeeps(p: Parser, ch: Byte)
    requires Valid(p.(nread := 0)) && p.nread <= MAX_HEADER_SIZE && InChunkHead(p.state)
    ensures Keeps(StepChunk(p, ch))
  {
  }

  lemma HeadersEndKeeps(p: Parser, ch: Byte)
    requires Valid(p) && p.state.HeadersAlmostDone?
    ensures Keeps(StepHeadersEnd(p, ch))
  {
  }

  lemma FieldCharInside(h: HeaderState, index: nat, ch: Byte)
    requires FieldMatching(h) && MatcherInside(h, index)
    ensures var (g, i) := FieldChar(h, index, ch); FieldMatching(g) && MatcherInside(g, i)
  {
    WordLengthIs(h);
  }

  lemma ValueCharInside(h: HeaderState, index: nat, ch: Byte)
    requires ValueMatching(h) && MatcherInside(h, index)
    ensures var (g, i) := ValueChar(h, index, ch); ValueMatching(g) && MatcherInside(g, i)
  {
    WordLengthIs(h);
  }

  lemma FieldKeeps(p: Parser, ch: Byte)
    requires Valid(p) && (p.state.HeaderFieldStart? || p.state.HeaderField?)
    ensures Keeps(StepField(p, ch))
  {
    hide FieldChar, StepHeadersEnd;
    if p.state.HeaderField? {
      FieldCharInside(p.headerState, p.index, ch);
    } else if ch == LF {
      HeadersEndKeeps(p.(state := HeadersAlmostDone), ch);
    }
  }

  lemma ValueStartKeeps(p: Parser, ch: Byte)
    requires Valid(p) && p.state.HeaderValueStart?
    ensures Keeps(StepValueStart(p, ch))
  {
  }

  lemma LineEndKeeps(p: Parser, ch: Byte)
    requires Valid(p) && p.state.HeaderAlmostDone?
    ensures Keeps(StepLineEnd(p, ch))
  {
  }

  lemma ValueKeeps(p: Parser, ch: Byte)
    requires Valid(p) && p.state.HeaderValue?
    ensures Keeps(StepValue(p, ch))
  {
    hide ValueChar, StepLineEnd;
    if ch == LF {
      LineEndKeeps(p.(state := HeaderAlmostDone), ch);
    } else {
      ValueCharInside(p.headerState, p.index, ch);
    }
  }

  lemma BodyKeeps(p: Parser, ch: Byte)
    requires Valid(p)
    requires p.state.BodyIdentity? || p.state.ChunkData? || p.state.ChunkDataAlmostDone? || p.state.ChunkDataDone?
    ensures Keeps(StepBody(p, ch))
  {
  }

  lemma StartInOrder(p: Parser, ch: Byte, ph: Phase)
    requires Fits(p, ph) && InStart(p.state)
    ensures InOrder(ph, StepStart(p, ch))
  {
  }

  lemma UrlInOrder(p: Parser, ch: Byte, ph: Phase)
    requires !p.flags.trailing && Fits(p, ph) && (p.state.ReqSpacesBeforeUrl? || InUrl(p.state))
    ensures InOrder(ph, StepUrl(p, ch))
  {
    hide ParseUrlChar;
    ParseUrlStays(p.state, ch);
    ParseUrlStays(ReqServerStart, ch);
  }

  lemma VersionInOrder(p: Parser, ch: Byte, ph: Phase)
    requires !p.flags.trailing && Fits(p, ph) && InVersion(p.state)
    ensures InOrder(ph, StepVersion(p, ch))
  {
  }

  lemma ChunkHeadInOrder(p: Parser, ch: Byte, ph: Phase)
    requires !p.flags.trailing && Fits(p, ph) && InChunkHead(p.state)
    ensures InOrder(ph, StepChunk(p, ch))
  {
  }

  lemma HeadersEndInOrder(p: Parser, ch: Byte, ph: Phase)
    requires Fits(p, ph) && p.state.HeadersAlmostDone?
    ensures InOrder(ph, StepHeadersEnd(p, ch))
  {
    hide ShouldKeepAlive;
  }

  lemma FieldInOrder(p: Parser, ch: Byte, ph: Phase)
    requires Fits(p, ph) && (p.state.HeaderFieldStart? || p.state.HeaderField?)
    ensures InOrder(ph, StepField(p, ch))
  {
    hide FieldChar, StepHeadersEnd;
    if p.state.HeaderFieldStart? && ch == LF {
      HeadersEndInOrder(p.(state := HeadersAlmostDone), ch, ph);
    }
  }

  lemma ValueStartInOrder(p: Parser, ch: Byte, ph: Phase)
    requires Fits(p, ph) && p.state.HeaderValueStart?
    ensures InOrder(ph, StepValueStart(p, ch))
  {
    hide ValueStart;
  }

  lemma ValueInOrder(p: Parser, ch: Byte, ph: Phase)
    requires Fits(p, ph) && p.state.HeaderValue?
    ensures InOrder(ph, StepValue(p, ch))
  {
    hide ValueChar;
  }

  lemma LineEndInOrder(p: Parser, ch: Byte, ph: Phase)
    requires Fits(p, ph) && p.state.HeaderAlmostDone?
    ensures InOrder(ph, StepLineEnd(p, ch))
  {
  }

  lemma BodyInOrder(p: Parser, ch: Byte, ph: Phase)
    requires !p.flags.trailing && Fits(p, ph)
    requires p.state.BodyIdentity? || p.state.ChunkData? || p.state.ChunkDataAlmostDone? || p.state.ChunkDataDone?
    ensures InOrder(ph, StepBody(p, ch))
  {
  }

  lemma DispatchKeeps(p: Parser, ch: Byte)
    requires Valid(if p.state.ChunkSizeStart? then p.(nread := 0) else p) && p.nread <= MAX_HEADER_SIZE
    ensures Keeps(Dispatch(p, ch))
  {
    hide StepStart, StepUrl, StepVersion, StepChunk, StepField, StepValueStart, StepValue, StepLineEnd,
         StepHeadersEnd, StepBody;
    if InStart(p.state) {
      StartKeeps(p, ch);
    } else if p.state.ReqSpacesBeforeUrl? || InUrl(p.state) {
      UrlKeeps(p, ch);
    } else if InVersion(p.state) {
      VersionKeeps(p, ch);
    } else if InChunkHead(p.state) {
      ChunkHeadKeeps(p, ch);
    } else {
      match p.state
      case HeaderFieldStart => FieldKeeps(p, ch);
      case HeaderField => FieldKeeps(p, ch);
      case HeaderValueStart => ValueStartKeeps(p, ch);
      case HeaderValue => ValueKeeps(p, ch);
      case HeaderAlmostDone => LineEndKeeps(p, ch);
      case HeaderValueLws =>
        if ch != SP && ch != HT { FieldKeeps(p.(state := HeaderFieldStart), ch); }
      case HeadersAlmostDone => HeadersEndKeeps(p, ch);
      case _ => BodyKeeps(p, ch);
    }
  }

  lemma DispatchInOrder(p: Parser, ch: Byte, ph: Phase)
    requires Valid(if p.state.ChunkSizeStart? then p.(nread := 0) else p) && Fits(p, ph)
    ensures InOrder(ph, Dispatch(p, ch))
  {
    hide StepStart, StepUrl, StepVersion, StepChunk, StepField, StepValueStart, StepValue, StepLineEnd,
         StepHeadersEnd, StepBody;
    if InStart(p.state) {
      StartInOrder(p, ch, ph);
    } else if p.state.ReqSpacesBeforeUrl? || InUrl(p.state) {
      UrlInOrder(p, ch, ph);
    } else if InVersion(p.state) {
      VersionInOrder(p, ch, ph);
    } else if InChunkHead(p.state) {
      ChunkHeadInOrder(p, ch, ph);
    } else {
      match p.state
      case HeaderFieldStart => FieldInOrder(p, ch, ph);
      case HeaderField => FieldInOrder(p, ch, ph);
      case HeaderValueStart => ValueStartInOrder(p, ch, ph);
      case HeaderValue => ValueInOrder(p, ch, ph);
      case HeaderAlmostDone => LineEndInOrder(p, ch, ph);
      case HeaderValueLws =>
        if ch != SP && ch != HT { FieldInOrder(p.(state := HeaderFieldStart), ch, ph); }
      case HeadersAlmostDone => HeadersEndInOrder(p, ch, ph);
      case _ => BodyInOrder(p, ch, ph);
    }
  }

  /** Every octet of every run: the invariant, the order of callbacks, and the assert nread == 1. */
  lemma StepSafe(p: Parser, ch: Byte, ph: Phase)
    requires Valid(p) && Fits(p, ph)
    ensures Keeps(Step(p, ch)) && InOrder(ph, Step(p, ch))
    ensures p.state.ChunkSizeStart? ==> p.nread + 1 == 1
  {
    hide Dispatch;
    if ParsingHeader(p.state) {
      var q := p.(nread := p.nread + 1);
      if q.nread <= MAX_HEADER_SIZE {
        DispatchKeeps(q, ch);
        DispatchInOrder(q, ch, ph);
      }
    } else {
      DispatchKeeps(p, ch);
      DispatchInOrder(p, ch, ph);
    }
  }

  lemma NextTwice(ph: Phase, a: Event, b: Event)
    requires SameData(a, b)
    ensures Next(Next(ph, a), b) == Next(ph, a)
    ensures Next(ph, a.(data := a.data + b.data)) == Next(ph, a)
  {
  }

  lemma PhaseOfEmit(t: seq<Event>, e: Event)
    ensures PhaseOf(Emit(t, e)) == Next(PhaseOf(t), e)
  {
    if t != [] && SameData(t[|t|-1], e) {
      var last := t[|t|-1];
      var joined := t[..|t|-1] + [last.(data := last.data + e.data)];
      assert joined[..|joined|-1] == t[..|t|-1];
      NextTwice(PhaseOf(t[..|t|-1]), last, e);
    } else {
      assert (t + [e])[..|t|] == t;
    }
  }

  lemma PhaseOfCalls(t: seq<Event>, calls: Calls)
    ensures PhaseOf(EmitCalls(t, calls)) == PhaseAfter(PhaseOf(t), calls)
  {
    match calls
    case NoCall =>
    case One(e) => PhaseOfEmit(t, e);
    case Two(first, second) =>
      PhaseOfEmit(t, first);
      PhaseOfEmit(Emit(t, first), second);
  }

  predicate Reachable(c: Conn) {
    && PhaseOf(c.trace) != Wrong
    && (c.stop.Go? ==> Valid(c.p) && Fits(c.p, PhaseOf(c.trace)))
    && (c.stop.Failed? <==> c.p.errno != OK)
    && (c.stop.Upgraded? ==> c.p.upgrade)
  }

  lemma AdvanceSafe(c: Conn, ch: Byte)
    requires Reachable(c)
    ensures Reachable(Advance(c, ch))
  {
    if c.stop.Go? {
      StepSafe(c.p, ch, PhaseOf(c.trace));
      PhaseOfCalls(c.trace, Step(c.p, ch).calls);
    }
  }

  /** Every run from any reachable connection, whatever the octets, is safe at its end (and so at every prefix). */
  lemma {:induction false} RunSafe(c: Conn, data: seq<Byte>)
    requires Reachable(c)
    ensures Reachable(Run(c, data))
  {
    if data != [] {
      RunSafe(c, data[..|data|-1]);
      AdvanceSafe(Run(c, data[..|data|-1]), data[|data|-1]);
    }
  }

  function Fresh(): Conn { Conn(Init(), [], Go, 0) }

  lemma FreshReachable()
    ensures Reachable(Fresh())
  {
  }

  function Begins(t: seq<Event>): nat {
    if t == [] then 0 else Begins(t[..|t|-1]) + if t[|t|-1].OnMessageBegin? then 1 else 0
  }

  function Completes(t: seq<Event>): nat {
    if t == [] then 0 else Completes(t[..|t|-1]) + if t[|t|-1].OnMessageComplete? then 1 else 0
  }

  lemma {:induction false} Alternate(t: seq<Event>)
    requires PhaseOf(t) != Wrong
    ensures Begins(t) == Completes(t) + if PhaseOf(t) == Idle then 0 else 1
  {
    if t != [] {
      Alternate(t[..|t|-1]);
    }
  }

  /** On one connection, from http_parser_init on and at every point of the stream, message begins and
      completes alternate, and a parser at rest has completed everything it began. */
  lemma MessagesAlternate(data: seq<Byte>)
    ensures var c := Run(Fresh(), data);
      && Completes(c.trace) <= Begins(c.trace) <= Completes(c.trace) + 1
      && (c.stop.Go? && (c.p.state.StartReq? || c.p.state.Dead?) ==> Begins(c.trace) == Completes(c.trace))
  {
    FreshReachable();
    RunSafe(Fresh(), data);
    Alternate(Run(Fresh(), data).trace);
  }
}
