/** Header lines and counted messages, as whole runs. */
module HttpMessages {
  import opened Bytes
  import opened Pieces
  import opened HttpSpec
  import opened HttpHeaders
  import opened HttpRuns

  lemma StepNameFirst(p: Parser, ch: Byte)
    requires p.state.HeaderFieldStart? && Token(ch) != 0 && p.nread < MAX_HEADER_SIZE
    ensures Step(p, ch) == Out(p.(nread := p.nread + 1, index := 0, state := HeaderField,
      headerState := FieldStart(Token(ch))), One(OnHeaderField([ch])), Go)
  {
    hide StepStart, StepUrl, StepVersion, StepChunk, StepHeadersEnd, FieldStart;
  }

  lemma StepNameNext(p: Parser, ch: Byte)
    requires p.state.HeaderField? && Token(ch) != 0 && p.nread < MAX_HEADER_SIZE
    ensures var (h, i) := FieldChar(p.headerState, p.index, ch);
      Step(p, ch) == Out(p.(nread := p.nread + 1, headerState := h, index := i), One(OnHeaderField([ch])), Go)
  {
    hide StepStart, StepUrl, StepVersion, StepChunk, StepHeadersEnd, FieldChar;
  }

  lemma {:induction false} RunName(c: Conn, s: seq<Byte>)
    requires c.stop.Go? && c.p.state.HeaderFieldStart?
    requires IsName(s) && c.p.nread + |s| <= MAX_HEADER_SIZE
    ensures var (h, i) := MatchName(s);
      Run(c, s) == Conn(c.p.(nread := c.p.nread + |s|, state := HeaderField, headerState := h, index := i),
                        Emit(c.trace, OnHeaderField(s)), Go, c.used + |s|)
  {
    hide Step, Run, Emit;
    var s', ch := s[..|s|-1], s[|s|-1];
    if s' == [] {
      assert s == [ch];
      RunOne(c, ch);
      StepNameFirst(c.p, ch);
    } else {
      RunName(c, s');
      RunSnoc(c, s', ch);
      assert s' + [ch] == s;
      StepNameNext(Run(c, s').p, ch);
      EmitTwice(c.trace, OnHeaderField(s'), OnHeaderField([ch]));
    }
  }

  predicate IsPad(s: seq<Byte>) {
    forall i :: 0 <= i < |s| ==> s[i] == SP || s[i] == HT
  }

  lemma StepColon(p: Parser)
    requires p.state.HeaderField? && p.nread < MAX_HEADER_SIZE
    ensures Step(p, ':' as int) == Out(p.(nread := p.nread + 1, state := HeaderValueStart), NoCall, Go)
  {
    hide StepStart, StepUrl, StepVersion, StepChunk, StepHeadersEnd, FieldChar;
  }

  lemma {:induction false} RunPad(c: Conn, s: seq<Byte>)
    requires c.stop.Go? && c.p.state.HeaderValueStart?
    requires IsPad(s) && c.p.nread + |s| <= MAX_HEADER_SIZE
    ensures Run(c, s) == Conn(c.p.(nread := c.p.nread + |s|), c.trace, Go, c.used + |s|)
  {
    hide StepStart, StepUrl, StepVersion, StepChunk, StepField;
    if s != [] {
      RunPad(c, s[..|s|-1]);
    }
  }

  lemma StepValueFirst(p: Parser, ch: Byte)
    requires p.state.HeaderValueStart? && p.nread < MAX_HEADER_SIZE
    requires ch != SP && ch != HT && ch != CR && ch != LF && !p.headerState.HContentLength?
    ensures Step(p, ch) == Out(p.(nread := p.nread + 1, state := HeaderValue, index := 0,
      flags := if p.headerState.HUpgrade? then p.flags.(upgrade := true) else p.flags,
      headerState := ValueStart(p.headerState, ch)), One(OnHeaderValue([ch])), Go)
  {
    hide StepStart, StepUrl, StepVersion, StepChunk, StepField, ValueStart;
  }

  lemma StepValueNext(p: Parser, ch: Byte)
    requires p.state.HeaderValue? && p.nread < MAX_HEADER_SIZE
    requires ch != CR && ch != LF && !p.headerState.HContentLength?
    ensures var (h, i) := ValueChar(p.headerState, p.index, ch);
      Step(p, ch) == Out(p.(nread := p.nread + 1, headerState := h, index := i), One(OnHeaderValue([ch])), Go)
  {
    hide StepStart, StepUrl, StepVersion, StepChunk, StepField, StepLineEnd, ValueChar;
  }

  lemma {:induction false} RunValue(c: Conn, s: seq<Byte>)
    requires c.stop.Go? && c.p.state.HeaderValueStart? && !c.p.headerState.HContentLength?
    requires IsValue(s) && s[0] != SP && s[0] != HT && c.p.nread + |s| <= MAX_HEADER_SIZE
    ensures var (h, i) := MatchValue(c.p.headerState, s);
      Run(c, s) == Conn(c.p.(nread := c.p.nread + |s|, state := HeaderValue, headerState := h, index := i,
                            flags := if c.p.headerState.HUpgrade? then c.p.flags.(upgrade := true) else c.p.flags),
                        Emit(c.trace, OnHeaderValue(s)), Go, c.used + |s|)
  {
    hide Step, Run, Emit;
    var s', ch := s[..|s|-1], s[|s|-1];
    ValuesTold(c.p.headerState, s);
    if s' == [] {
      assert s == [ch];
      RunOne(c, ch);
      StepValueFirst(c.p, ch);
    } else {
      ValuesTold(c.p.headerState, s');
      RunValue(c, s');
      RunSnoc(c, s', ch);
      assert s' + [ch] == s;
      StepValueNext(Run(c, s').p, ch);
      EmitTwice(c.trace, OnHeaderValue(s'), OnHeaderValue([ch]));
    }
  }

  lemma RunLineEnd(c: Conn)
    requires c.stop.Go? && c.p.state.HeaderValue? && c.p.nread + 2 <= MAX_HEADER_SIZE
    ensures Run(c, CRLF) == Conn(c.p.(nread := c.p.nread + 2, state := HeaderValueLws,
      flags := match c.p.headerState
        case HConnectionKeepAlive => c.p.flags.(keepAlive := true)
        case HConnectionClose => c.p.flags.(close := true)
        case HTransferEncodingChunked => c.p.flags.(chunked := true)
        case _ => c.p.flags), c.trace, Go, c.used + 2)
  {
    hide Run, StepStart, StepUrl, StepVersion, StepChunk, StepField, ValueChar;
    RunTwo(c, CR, LF);
  }

  /** One line "name: value" of a header the parser does not count bodies by. */
  function Line(name: seq<Byte>, pad: seq<Byte>, value: seq<Byte>): seq<Byte> {
    name + [':' as int] + pad + value + CRLF
  }

  predicate IsConnection(name: seq<Byte>) {
    Spells(HMatchingConnection, name) || Spells(HMatchingProxyConnection, name)
  }

  /** What a whole header line does to the flags, as comparisons of its name and value with the known words. */
  function LineFlags(f: Flags, name: seq<Byte>, value: seq<Byte>): Flags {
    Flags(
      f.chunked || (Spells(HMatchingTransferEncoding, name) && SpellsPadded(HMatchingTransferEncodingChunked, value)),
      f.keepAlive || (IsConnection(name) && SpellsPadded(HMatchingConnectionKeepAlive, value)),
      f.close || (IsConnection(name) && SpellsPadded(HMatchingConnectionClose, value)),
      f.trailing,
      f.upgrade || (Spells(HMatchingUpgrade, name) && value != []))
  }

  lemma LineTold(f: Flags, name: seq<Byte>, value: seq<Byte>)
    requires IsName(name) && IsValue(value) && !Spells(HMatchingContentLength, name)
    ensures var h := MatchName(name).0;
      var g := if h.HUpgrade? then f.(upgrade := true) else f;
      && !h.HContentLength?
      && LineFlags(f, name, value) == match MatchValue(h, value).0
        case HConnectionKeepAlive => g.(keepAlive := true)
        case HConnectionClose => g.(close := true)
        case HTransferEncodingChunked => g.(chunked := true)
        case _ => g
  {
    hide Spells, SpellsPadded, MatchName, MatchValue;
    NameTold(name);
    var h := MatchName(name).0;
    assert forall g :: g != HGeneral ==> (NameState(g, name) <==> h == g);
    assert NameState(HContentLength, name) <==> h == HContentLength;
    assert NameState(HConnection, name) <==> h == HConnection;
    assert NameState(HTransferEncoding, name) <==> h == HTransferEncoding;
    assert NameState(HUpgrade, name) <==> h == HUpgrade;
    ValuesTold(h, value);
    var k := MatchValue(h, value).0;
    assert ValueState(HConnectionKeepAlive, h, value) <==> k == HConnectionKeepAlive;
    assert ValueState(HConnectionClose, h, value) <==> k == HConnectionClose;
    assert ValueState(HTransferEncodingChunked, h, value) <==> k == HTransferEncodingChunked;
  }

  /** Between two lines the parser waits for a folded one; any octet but a space or a tab begins the next
      line as after the request line. */
  predicate AtLineStart(p: Parser) {
    p.state.HeaderFieldStart? || p.state.HeaderValueLws?
  }

  lemma StepLws(p: Parser, ch: Byte)
    requires p.state.HeaderValueLws? && p.nread < MAX_HEADER_SIZE && ch != SP && ch != HT
    ensures Step(p, ch) == Step(p.(state := HeaderFieldStart), ch)
  {
    hide StepStart, StepUrl, StepVersion, StepChunk, StepField, StepValueStart, StepValue, StepLineEnd,
         StepHeadersEnd, StepBody;
  }

  lemma RunLws(c: Conn, data: seq<Byte>)
    requires c.stop.Go? && AtLineStart(c.p) && c.p.nread < MAX_HEADER_SIZE
    requires data != [] && data[0] != SP && data[0] != HT
    ensures Run(c, data) == Run(c.(p := c.p.(state := HeaderFieldStart)), data)
  {
    hide Run, Step;
    var d := c.(p := c.p.(state := HeaderFieldStart));
    assert data == [data[0]] + data[1..];
    RunConcat(c, [data[0]], data[1..]);
    RunConcat(d, [data[0]], data[1..]);
    RunOne(c, data[0]);
    RunOne(d, data[0]);
    if c.p.state.HeaderValueLws? { StepLws(c.p, data[0]); }
  }

  lemma NameFirst(name: seq<Byte>)
    requires IsName(name)
    ensures name != [] && name[0] != SP && name[0] != HT
  {}

  /** A line's value: nothing, or text that does not begin with a space or a tab. */
  predicate IsText(value: seq<Byte>) {
    value == [] || (IsValue(value) && value[0] != SP && value[0] != HT)
  }

  /** The line is reported once as its field and its value, and changes the flags as LineFlags says; no more. */
  lemma RunLine(c: Conn, name: seq<Byte>, pad: seq<Byte>, value: seq<Byte>)
    requires c.stop.Go? && AtLineStart(c.p)
    requires IsName(name) && IsPad(pad) && IsText(value) && (value == [] || !Spells(HMatchingContentLength, name))
    requires c.p.nread + |Line(name, pad, value)| <= MAX_HEADER_SIZE
    ensures var r := Run(c, Line(name, pad, value));
      && r.stop.Go? && r.p.state.HeaderValueLws? && r.used == c.used + |Line(name, pad, value)|
      && r.p == c.p.(state := HeaderValueLws, headerState := r.p.headerState, index := r.p.index,
                     nread := c.p.nread + |Line(name, pad, value)|, flags := LineFlags(c.p.flags, name, value))
      && r.trace == Emit(Emit(c.trace, OnHeaderField(name)), OnHeaderValue(value))
  {
    hide Run, Step, Emit, MatchName, MatchValue, IsName, IsValue, Spells, LineFlags, CRLF, Word, AtLineStart, IsPad;
    CrlfLength();
    RunStart(c, name, pad);
    var c3 := Run(c, name + [':' as int] + pad);
    RunConcat(c, name + [':' as int] + pad, value);
    RunConcat(c, name + [':' as int] + pad + value, CRLF);
    if value == [] {
      assert name + [':' as int] + pad + value == name + [':' as int] + pad;
      RunNoValue(c3);
      NoValueFlags(c.p.flags, name);
    } else {
      LineTold(c.p.flags, name, value);
      RunValue(c3, value);
      RunLineEnd(Run(c3, value));
    }
  }

  /** A header's name, the colon and the padding. */
  lemma RunStart(c: Conn, name: seq<Byte>, pad: seq<Byte>)
    requires c.stop.Go? && AtLineStart(c.p) && IsName(name) && IsPad(pad)
    requires c.p.nread + |name| + 1 + |pad| <= MAX_HEADER_SIZE
    ensures Run(c, name + [':' as int] + pad) == Conn(
      c.p.(state := HeaderValueStart, headerState := MatchName(name).0, index := MatchName(name).1,
           nread := c.p.nread + |name| + 1 + |pad|),
      Emit(c.trace, OnHeaderField(name)), Go, c.used + |name| + 1 + |pad|)
  {
    hide Run, Step, Emit, MatchName, IsPad;
    NameFirst(name);
    RunLws(c, name);
    RunName(c.(p := c.p.(state := HeaderFieldStart)), name);
    RunSnoc(c, name, ':' as int);
    StepColon(Run(c, name).p);
    RunConcat(c, name + [':' as int], pad);
    RunPad(Run(c, name + [':' as int]), pad);
  }

  /** A header without a value. */
  lemma RunNoValue(c: Conn)
    requires c.stop.Go? && c.p.state.HeaderValueStart? && c.p.nread + 2 <= MAX_HEADER_SIZE
    ensures Run(c, CRLF) == Conn(c.p.(nread := c.p.nread + 2, state := HeaderValueLws, headerState := HGeneral,
        index := 0),
                                 Emit(c.trace, OnHeaderValue([])), Go, c.used + 2)
  {
    hide Run, Step, Emit;
    RunTwo(c, CR, LF);
    StepNoValue(c.p);
  }

  lemma StepNoValue(p: Parser)
    requires p.state.HeaderValueStart? && p.nread + 2 <= MAX_HEADER_SIZE
    ensures Step(p, CR) == Out(p.(nread := p.nread + 1, state := HeaderAlmostDone, headerState := HGeneral, index := 0),
                               One(OnHeaderValue([])), Go)
    ensures Step(Step(p, CR).p, LF)
      == Out(p.(nread := p.nread + 2, state := HeaderValueLws, headerState := HGeneral, index := 0), NoCall, Go)
  {
    hide StepStart, StepUrl, StepVersion, StepChunk, StepField, ValueStart, StepHeadersEnd, StepBody;
  }

  lemma NoValueFlags(f: Flags, name: seq<Byte>)
    ensures LineFlags(f, name, []) == f
  {
    hide Spells;
  }

  lemma CrlfLength()
    ensures |CRLF| == 2
  {
  }

  // ---------- Content-Length ----------

  /** The value of a Content-Length: a digit, then digits and spaces. */
  predicate IsDigits(ds: seq<Byte>) {
    |ds| > 0 && IsNum(ds[0]) && forall i :: 0 <= i < |ds| ==> IsNum(ds[i]) || ds[i] == SP
  }

  /** The number the digits denote, unbounded, spaces left out wherever they stand. */
  function Decimal(ds: seq<Byte>): (n: nat)
    requires forall i :: 0 <= i < |ds| ==> IsNum(ds[i]) || ds[i] == SP
  {
    if ds == [] then 0
    else
      assert IsNum(ds[|ds|-1]) || ds[|ds|-1] == SP;
      if ds[|ds|-1] == SP then Decimal(ds[..|ds|-1])
      else Decimal(ds[..|ds|-1]) * 10 + (ds[|ds|-1] - '0' as int)
  }

  lemma StepFirstDigit(p: Parser, ch: Byte)
    requires p.state.HeaderValueStart? && p.headerState.HContentLength? && !p.setContentLength
    requires IsNum(ch) && p.nread < MAX_HEADER_SIZE
    ensures Step(p, ch) == Out(p.(nread := p.nread + 1, state := HeaderValue, index := 0,
      contentLength := ch - '0' as int, setContentLength := true), One(OnHeaderValue([ch])), Go)
  {
    hide StepStart, StepUrl, StepVersion, StepChunk, StepField, ValueStart;
  }

  lemma StepDigit(p: Parser, ch: Byte)
    requires p.state.HeaderValue? && p.headerState.HContentLength?
    requires IsNum(ch) && p.nread < MAX_HEADER_SIZE
    ensures var q := p.(nread := p.nread + 1);
      var t := Accumulate(p.contentLength, 10, ch - '0' as int);
      Step(p, ch) == if Overflowed(p.contentLength, t) then Out(q.(errno := INVALID_CONTENT_LENGTH), NoCall, Failed)
                     else Out(q.(contentLength := t), One(OnHeaderValue([ch])), Go)
  {
    hide StepStart, StepUrl, StepVersion, StepChunk, StepField, StepLineEnd, ValueChar, Accumulate, Overflowed;
  }

  lemma StepSpace(p: Parser)
    requires p.state.HeaderValue? && p.headerState.HContentLength? && p.nread < MAX_HEADER_SIZE
    ensures Step(p, SP) == Out(p.(nread := p.nread + 1), One(OnHeaderValue([SP])), Go)
  {
    hide StepStart, StepUrl, StepVersion, StepChunk, StepField, StepLineEnd, ValueChar;
  }

  /** Below 2^64-1 the digits are accepted as exactly their value. */
  lemma {:induction false} RunDigits(c: Conn, ds: seq<Byte>)
    requires c.stop.Go? && c.p.state.HeaderValueStart? && c.p.headerState.HContentLength? && !c.p.setContentLength
    requires IsDigits(ds) && c.p.nread + |ds| <= MAX_HEADER_SIZE && Decimal(ds) < ULLONG_MAX
    ensures Run(c, ds) == Conn(c.p.(nread := c.p.nread + |ds|, state := HeaderValue, index := 0,
      contentLength := Decimal(ds), setContentLength := true), Emit(c.trace, OnHeaderValue(ds)), Go, c.used + |ds|)
  {
    hide Step, Run, Emit;
    var ds', ch := ds[..|ds|-1], ds[|ds|-1];
    if ds' == [] {
      assert ds == [ch];
      assert Decimal(ds) == ch - '0' as int;
      RunOne(c, ch);
      StepFirstDigit(c.p, ch);
    } else {
      RunDigits(c, ds');
      RunSnoc(c, ds', ch);
      assert ds' + [ch] == ds;
      if ch == SP { StepSpace(Run(c, ds').p); } else { StepDigit(Run(c, ds').p, ch); }
      EmitTwice(c.trace, OnHeaderValue(ds'), OnHeaderValue([ch]));
    }
  }

  /** Whatever the digits, an accepted count is a 64-bit value below the sentinel. */
  lemma {:induction false} DigitsBounded(c: Conn, ds: seq<Byte>)
    requires c.stop.Go? && c.p.state.HeaderValueStart? && c.p.headerState.HContentLength? && !c.p.setContentLength
    requires IsDigits(ds) && c.p.nread + |ds| <= MAX_HEADER_SIZE
    ensures var r := Run(c, ds);
      r.stop.Go? ==> r.p.state.HeaderValue? && r.p.headerState.HContentLength?
                     && r.p.contentLength < ULLONG_MAX && r.p.nread == c.p.nread + |ds|
  {
    hide Step, Run, Emit;
    var ds', ch := ds[..|ds|-1], ds[|ds|-1];
    if ds' == [] {
      assert ds == [ch];
      RunOne(c, ch);
      StepFirstDigit(c.p, ch);
    } else {
      DigitsBounded(c, ds');
      RunSnoc(c, ds', ch);
      assert ds' + [ch] == ds;
      if Run(c, ds').stop.Go? {
        if ch == SP { StepSpace(Run(c, ds').p); } else { StepDigit(Run(c, ds').p, ch); }
      }
    }
  }

  /** A Content-Length digit string is accepted as the number it denotes exactly when that is below 2^64-1. */
  lemma ContentLengthExact(c: Conn, ds: seq<Byte>)
    requires c.stop.Go? && c.p.state.HeaderValueStart? && c.p.headerState.HContentLength? && !c.p.setContentLength
    requires IsDigits(ds) && c.p.nread + |ds| <= MAX_HEADER_SIZE
    ensures (Run(c, ds).stop.Go? && Run(c, ds).p.contentLength == Decimal(ds)) <==> Decimal(ds) < ULLONG_MAX
  {
    hide Run, Step, Emit;
    DigitsBounded(c, ds);
    if Decimal(ds) < ULLONG_MAX { RunDigits(c, ds); }
  }

  function Pow10(k: nat): nat {
    if k == 0 then 1 else 10 * Pow10(k - 1)
  }

  /** The digit 5 and k zeros. */
  function Fives(k: nat): seq<Byte> {
    if k == 0 then ['5' as int] else Fives(k - 1) + ['0' as int]
  }

  lemma {:induction false} FivesValue(k: nat)
    ensures IsDigits(Fives(k)) && |Fives(k)| == k + 1 && Decimal(Fives(k)) == 5 * Pow10(k)
  {
    if k == 0 {
      assert Fives(0)[..0] == [];
    } else {
      FivesValue(k - 1);
      DecimalSnoc(Fives(k - 1), '0' as int);
    }
  }

  lemma DecimalSnoc(ds: seq<Byte>, d: Byte)
    requires IsDigits(ds) && IsNum(d)
    ensures IsDigits(ds + [d]) && Decimal(ds + [d]) == 10 * Decimal(ds) + (d - '0' as int)
  {
    assert (ds + [d])[..|ds|] == ds;
  }

  /** 5*10^19 is accepted as that number modulo 2^64: the overflow test does not catch every wrap. */
  lemma ContentLengthWraps(c: Conn)
    requires c.stop.Go? && c.p.state.HeaderValueStart? && c.p.headerState.HContentLength? && !c.p.setContentLength
    requires c.p.nread + 20 <= MAX_HEADER_SIZE
    ensures IsDigits(Fives(19)) && Decimal(Fives(19)) == 50000000000000000000
    ensures Run(c, Fives(19)).stop.Go? && Run(c, Fives(19)).p.contentLength == 13106511852580896768
  {
    hide Run, Step, Emit;
    FivesValue(18);
    FivesValue(19);
    assert Pow10(6) == 1000000 by { assert Pow10(3) == 1000; }
    assert Pow10(12) == 1000000000000 by { assert Pow10(9) == 1000000000; }
    assert Pow10(18) == 1000000000000000000 by { assert Pow10(15) == 1000000000000000; }
    assert Fives(19) == Fives(18) + ['0' as int];
    RunDigits(c, Fives(18));
    RunSnoc(c, Fives(18), '0' as int);
    StepDigit(Run(c, Fives(18)).p, '0' as int);
  }

  // ---------- a counted message ----------

  lemma StepBlockCR(p: Parser)
    requires AtLineStart(p) && p.nread < MAX_HEADER_SIZE
    ensures Step(p, CR) == Out(p.(nread := p.nread + 1, state := HeadersAlmostDone), NoCall, Go)
  {
    hide StepStart, StepUrl, StepVersion, StepChunk, StepHeadersEnd, FieldChar;
  }

  /** The empty line that ends a header block has come up to its line feed, which may stand alone. */
  predicate AtBlockEnd(p: Parser) {
    p.state.HeadersAlmostDone? || AtLineStart(p)
  }

  lemma StepBlockLF(p: Parser)
    requires AtBlockEnd(p) && p.nread < MAX_HEADER_SIZE
    requires !p.flags.trailing && !p.flags.chunked && !p.flags.upgrade && p.verb != CONNECT
    ensures var q := p.(nread := p.nread + 1, state := HeadersDone, upgrade := false);
      Step(p, LF) == if Announced(p.contentLength) == 0
        then Out(q.(nread := 0, state := NewMessage(q)), Two(OnHeadersComplete(q), OnMessageComplete), Go)
        else Out(q.(nread := 0, state := BodyIdentity), One(OnHeadersComplete(q)), Go)
  {
    hide StepStart, StepUrl, StepVersion, StepChunk, FieldChar, StepValueStart, StepValue, StepLineEnd, StepBody;
  }

  /** Section 6.3 of RFC 7230: from version 1.1 on a connection stays open unless it is to be closed, before that it
      is closed unless it is to be kept; a version .0 of whatever major number counts with the latter. */
  predicate Closing(major: nat, minor: nat, f: Flags) {
    if major >= 1 && minor >= 1 then f.close else !f.keepAlive
  }

  /** The parser as the headers callback sees it, n octets further on. */
  function AtEnd(p: Parser, n: nat): Parser {
    p.(state := HeadersDone, nread := p.nread + n, upgrade := false)
  }

  /** The connection behind a message with this body: the headers callback sees q, the body is one callback, then the
      message is complete. */
  function Completed(q: Parser, t: seq<Event>, body: seq<Byte>, used: nat): Conn {
    var u := Emit(t, OnHeadersComplete(q));
    Conn(q.(nread := 0, contentLength := if body == [] then q.contentLength else 0,
            state := if Closing(q.httpMajor, q.httpMinor, q.flags) then Dead else StartReq),
      Emit(if body == [] then u else Emit(u, OnBody(body)), OnMessageComplete), Go, used)
  }

  /** Whatever octets lead up to the line feed that ends a header block, with lines folded or not and ended as the
      parser allows: the N octets behind it, N being the length read from the block or 0 without one, are delivered
      as they are, then the message completes, however the stream is cut; the connection is then at the next
      message, or closed, as the keep-alive rule says. */
  lemma CountedBody(c: Conn, head: seq<Byte>, body: seq<Byte>, parts: seq<seq<Byte>>)
    requires var e := Run(c, head);
      && e.stop.Go? && AtBlockEnd(e.p) && e.p.nread < MAX_HEADER_SIZE
      && Announced(e.p.contentLength) == |body| < ULLONG_MAX
      && !e.p.flags.trailing && !e.p.flags.chunked && !e.p.flags.upgrade && e.p.verb != CONNECT
    requires Flatten(parts) == head + [LF] + body
    ensures var e := Run(c, head);
      RunParts(c, parts) == Completed(AtEnd(e.p, 1), e.trace, body, e.used + 1 + |body|)
  {
    hide Run, Emit, Step, AtBlockEnd;
    BoundariesDoNotMatter(c, parts);
    RunConcat(c, head + [LF], body);
    RunSnoc(c, head, LF);
    StepBlockLF(Run(c, head).p);
    if body == [] {
      assert head + [LF] + body == head + [LF];
    } else {
      RunBody(Run(c, head + [LF]), body);
    }
  }

  /** One header line. */
  datatype Header = Header(name: seq<Byte>, pad: seq<Byte>, value: seq<Byte>)

  /** Content-Length, unless without a value, which the parser passes over. */
  predicate IsLength(h: Header) {
    Spells(HMatchingContentLength, h.name) && h.value != []
  }

  predicate IsHeader(h: Header) {
    && IsName(h.name) && IsPad(h.pad) && IsText(h.value)
    && (IsLength(h) ==> IsDigits(h.value) && Decimal(h.value) < ULLONG_MAX)
  }

  function LineOf(h: Header): seq<Byte> {
    Line(h.name, h.pad, h.value)
  }

  /** The lines of a header block, without the empty line that ends it. */
  function HeaderBlock(hs: seq<Header>): seq<Byte> {
    if hs == [] then [] else HeaderBlock(hs[..|hs|-1]) + LineOf(hs[|hs|-1])
  }

  function BlockFlags(f: Flags, hs: seq<Header>): Flags {
    if hs == [] then f
    else
      var g, h := BlockFlags(f, hs[..|hs|-1]), hs[|hs|-1];
      if IsLength(h) then g else LineFlags(g, h.name, h.value)
  }

  function LengthOf(h: Header): nat {
    if IsDigits(h.value) then Decimal(h.value) else 0
  }

  /** The length a block announces, n when it announces none. */
  function BlockLength(n: nat, hs: seq<Header>): nat {
    if hs == [] then n
    else if IsLength(hs[|hs|-1]) then LengthOf(hs[|hs|-1]) else BlockLength(n, hs[..|hs|-1])
  }

  predicate HasLength(hs: seq<Header>) {
    exists i :: 0 <= i < |hs| && IsLength(hs[i])
  }

  /** Header lines with at most one Content-Length among them, anywhere. */
  ghost predicate IsBlock(hs: seq<Header>) {
    && (forall h :: h in hs ==> IsHeader(h))
    && (forall i, j :: 0 <= i < j < |hs| ==> !(IsLength(hs[i]) && IsLength(hs[j])))
  }

  function EmitLines(t: seq<Event>, hs: seq<Header>): seq<Event> {
    if hs == [] then t
    else Emit(Emit(EmitLines(t, hs[..|hs|-1]), OnHeaderField(hs[|hs|-1].name)), OnHeaderValue(hs[|hs|-1].value))
  }

  /** The Content-Length line. */
  lemma RunLength(c: Conn, h: Header)
    requires c.stop.Go? && AtLineStart(c.p) && !c.p.setContentLength && IsHeader(h) && IsLength(h)
    requires c.p.nread + |LineOf(h)| <= MAX_HEADER_SIZE
    ensures var r := Run(c, LineOf(h));
      && r.stop.Go? && r.used == c.used + |LineOf(h)|
      && r.p == c.p.(state := HeaderValueLws, headerState := r.p.headerState, index := r.p.index,
                     nread := c.p.nread + |LineOf(h)|, contentLength := LengthOf(h), setContentLength := true)
      && r.trace == Emit(Emit(c.trace, OnHeaderField(h.name)), OnHeaderValue(h.value))
  {
    hide Run, Step, Emit, MatchName, Spells, CRLF, IsDigits, IsPad, IsName, IsText, AtLineStart;
    CrlfLength();
    NameFirst(h.name);
    NameTold(h.name);
    assert NameState(HContentLength, h.name) <==> MatchName(h.name).0 == HContentLength;
    RunStart(c, h.name, h.pad);
    var c3 := Run(c, h.name + [':' as int] + h.pad);
    RunConcat(c, h.name + [':' as int] + h.pad, h.value);
    RunConcat(c, h.name + [':' as int] + h.pad + h.value, CRLF);
    RunDigits(c3, h.value);
    RunLineEnd(Run(c3, h.value));
  }

  /** What the lines of a block leave. */
  ghost predicate AfterLines(c: Conn, hs: seq<Header>, r: Conn) {
    && r.stop.Go? && r.used == c.used + |HeaderBlock(hs)| && r.trace == EmitLines(c.trace, hs)
    && r.p == c.p.(state := if hs == [] then c.p.state else HeaderValueLws,
                   headerState := r.p.headerState, index := r.p.index,
                   nread := c.p.nread + |HeaderBlock(hs)|, flags := BlockFlags(c.p.flags, hs),
                   contentLength := BlockLength(c.p.contentLength, hs),
                       setContentLength := c.p.setContentLength || HasLength(hs))
  }

  /** Any header lines, a Content-Length anywhere among them. */
  lemma {:induction false} RunLines(c: Conn, hs: seq<Header>)
    requires c.stop.Go? && AtLineStart(c.p) && IsBlock(hs) && !(c.p.setContentLength && HasLength(hs))
    requires c.p.nread + |HeaderBlock(hs)| <= MAX_HEADER_SIZE
    ensures AfterLines(c, hs, Run(c, HeaderBlock(hs)))
    decreases |hs|
  {
    hide Run, Emit, IsHeader, LineFlags, Line, Decimal;
    RunNothing(c);
    if hs != [] {
      var front, h := hs[..|hs|-1], hs[|hs|-1];
      LastHeader(hs);
      RunLines(c, front);
      var c1 := Run(c, HeaderBlock(front));
      RunConcat(c, HeaderBlock(front), LineOf(h));
      RunOneLine(c1, h);
    }
  }

  lemma RunOneLine(c: Conn, h: Header)
    requires c.stop.Go? && AtLineStart(c.p) && IsHeader(h) && !(c.p.setContentLength && IsLength(h))
    requires c.p.nread + |LineOf(h)| <= MAX_HEADER_SIZE
    ensures var r := Run(c, LineOf(h));
      && r.stop.Go? && r.used == c.used + |LineOf(h)|
      && r.p == c.p.(state := HeaderValueLws, headerState := r.p.headerState, index := r.p.index,
                     nread := c.p.nread + |LineOf(h)|,
                     flags := if IsLength(h) then c.p.flags else LineFlags(c.p.flags, h.name, h.value),
                     contentLength := if IsLength(h) then LengthOf(h) else c.p.contentLength,
                     setContentLength := c.p.setContentLength || IsLength(h))
      && r.trace == Emit(Emit(c.trace, OnHeaderField(h.name)), OnHeaderValue(h.value))
  {
    hide Run, Emit, LineFlags, Decimal, Line, IsText, IsName, IsPad, IsDigits, Spells, AtLineStart;
    if IsLength(h) { RunLength(c, h); } else { RunLine(c, h.name, h.pad, h.value); }
  }

  lemma LastHeader(hs: seq<Header>)
    requires hs != [] && IsBlock(hs)
    ensures IsBlock(hs[..|hs|-1]) && IsHeader(hs[|hs|-1])
    ensures HasLength(hs) <==> HasLength(hs[..|hs|-1]) || IsLength(hs[|hs|-1])
    ensures IsLength(hs[|hs|-1]) ==> !HasLength(hs[..|hs|-1])
  {
    hide IsLength, IsHeader;
    var front := hs[..|hs|-1];
    assert forall i :: 0 <= i < |front| ==> front[i] == hs[i];
    if HasLength(hs) {
      var i :| 0 <= i < |hs| && IsLength(hs[i]);
      assert i < |front| ==> IsLength(front[i]);
    }
    if HasLength(front) {
      var i :| 0 <= i < |front| && IsLength(front[i]);
      assert IsLength(hs[i]);
    }
  }

  /** A request with a Content-Length among its header lines delivers precisely the N octets after its header
      block and then completes, however the stream is cut; the connection is then at the next message, or
      closed, as the keep-alive rule says. */
  lemma CountedMessage(c: Conn, hs: seq<Header>, body: seq<Byte>, parts: seq<seq<Byte>>)
    requires c.stop.Go? && c.p.state.HeaderFieldStart? && !c.p.setContentLength && c.p.verb != CONNECT
    requires IsBlock(hs) && HasLength(hs) && BlockLength(0, hs) == |body| < ULLONG_MAX
    requires var f := BlockFlags(c.p.flags, hs); !f.trailing && !f.chunked && !f.upgrade
    requires c.p.nread + |HeaderBlock(hs)| + 2 <= MAX_HEADER_SIZE
    requires Flatten(parts) == HeaderBlock(hs) + CRLF + body
    ensures AfterLines(c, hs, Run(c, HeaderBlock(hs)))
    ensures RunParts(c, parts) ==
      Completed(AtEnd(Run(c, HeaderBlock(hs)).p, 2), EmitLines(c.trace, hs), body, c.used + |Flatten(parts)|)
  {
    hide Run, Step, Emit, HeaderBlock, EmitLines, BlockFlags, IsBlock, HasLength;
    RunLines(c, hs);
    LengthStands(c.p.contentLength, 0, hs);
    var c1 := Run(c, HeaderBlock(hs));
    RunSnoc(c, HeaderBlock(hs), CR);
    StepBlockCR(c1.p);
    assert HeaderBlock(hs) + CRLF == HeaderBlock(hs) + [CR] + [LF];
    CountedBody(c, HeaderBlock(hs) + [CR], body, parts);
  }

  /** The length a block announces is its own. */
  lemma {:induction false} LengthStands(m: nat, n: nat, hs: seq<Header>)
    requires HasLength(hs)
    ensures BlockLength(m, hs) == BlockLength(n, hs) && hs != []
    decreases |hs|
  {
    var i :| 0 <= i < |hs| && IsLength(hs[i]);
    if i < |hs| - 1 {
      assert IsLength(hs[..|hs|-1][i]);
      if !IsLength(hs[|hs|-1]) { LengthStands(m, n, hs[..|hs|-1]); }
    }
  }

  lemma {:induction false} NoLength(n: nat, hs: seq<Header>)
    requires !HasLength(hs)
    ensures BlockLength(n, hs) == n
    decreases |hs|
  {
    if hs != [] {
      var front := hs[..|hs| - 1];
      assert !IsLength(hs[|hs| - 1]);
      assert forall i :: 0 <= i < |front| ==> front[i] == hs[i];
      NoLength(n, front);
    }
  }

  lemma SetStaysLine(p: Parser, ch: Byte)
    requires p.setContentLength
    ensures StepStart(p, ch).p.setContentLength
    ensures StepUrl(p, ch).p.setContentLength
    ensures StepVersion(p, ch).p.setContentLength
    ensures StepChunk(p, ch).p.setContentLength
    ensures StepBody(p, ch).p.setContentLength
  {
    hide FirstMethod, MethodChar, ParseUrlChar, Text, CharAt, Unhex, Accumulate, Overflowed, NewMessage;
  }

  lemma SetStaysBlock(p: Parser, ch: Byte)
    requires p.setContentLength
    ensures StepHeadersEnd(p, ch).p.setContentLength
    ensures StepHeadersDone(p, ch).p.setContentLength
    ensures StepField(p, ch).p.setContentLength
    ensures StepField(p.(state := HeaderFieldStart), ch).p.setContentLength
    ensures StepLineEnd(p, ch).p.setContentLength
    ensures StepValue(p, ch).p.setContentLength
    ensures StepValueStart(p, ch).p.setContentLength
  {
    hide FieldChar, FieldStart, ValueChar, ValueStart, Token, Accumulate, Overflowed, NewMessage;
  }

  lemma {:induction false} SetStays(c: Conn, data: seq<Byte>)
    requires c.p.setContentLength
    ensures Run(c, data).p.setContentLength
  {
    hide StepStart, StepUrl, StepVersion, StepChunk, StepField, StepValueStart, StepValue, StepLineEnd, StepHeadersEnd,
         StepHeadersDone, StepBody, Emit;
    if data != [] {
      SetStays(c, data[..|data|-1]);
      var q := Run(c, data[..|data|-1]).p;
      SetStaysLine(q, data[|data|-1]);
      SetStaysLine(q.(nread := q.nread + 1), data[|data|-1]);
      SetStaysBlock(q, data[|data|-1]);
      SetStaysBlock(q.(nread := q.nread + 1), data[|data|-1]);
    }
  }

  /** The first digit of a Content-Length is taken exactly when no message on the parser has had one. */
  lemma DigitTaken(p: Parser, ch: Byte)
    requires p.state.HeaderValueStart? && p.headerState.HContentLength? && IsNum(ch) && p.nread < MAX_HEADER_SIZE
    ensures Step(p, ch).stop.Go? <==> !p.setContentLength
    ensures p.setContentLength ==> Step(p, ch).stop.Failed? && Step(p, ch).p.errno == INVALID_CONTENT_LENGTH
  {
    hide StepStart, StepUrl, StepVersion, StepChunk, StepField;
  }

  /** set_content_length is never cleared, so "after a message the parser is as good as new" fails: once one
      message has carried a Content-Length, a further one through the same parser is refused at its first digit,
      whatever the octets in between. */
  lemma LengthTakenOnce(c: Conn, data: seq<Byte>, ch: Byte)
    requires c.p.setContentLength && IsNum(ch)
    ensures var r := Run(c, data);
      r.stop.Go? && r.p.state.HeaderValueStart? && r.p.headerState.HContentLength? ==> Step(r.p, ch).stop.Failed?
  {
    hide Run, StepStart, StepUrl, StepVersion, StepChunk, StepField;
    SetStays(c, data);
  }
}
