/** Whole requests from their first octet on, and when a connection is kept. */
module HttpRequests {
  import opened Bytes
  import opened Pieces
  import opened HttpSpec
  import opened HttpHeaders
  import opened HttpRuns
  import opened HttpMessages
  import opened HttpChunks
  import opened HttpRequestLine

  // ---- header lines, by their words ----

  /** w, in letters of either case, and any spaces. */
  predicate PaddedWord(v: seq<Byte>, w: string) {
    |w| <= |v| && SpellsWord(v[..|w|], w) && forall i :: |w| <= i < |v| ==> v[i] == SP
  }

  predicate AboutConnection(h: Header) {
    SpellsWord(h.name, "connection") || SpellsWord(h.name, "proxy-connection")
  }

  predicate Closes(h: Header) {
    AboutConnection(h) && PaddedWord(h.value, "close")
  }

  predicate Keeps(h: Header) {
    AboutConnection(h) && PaddedWord(h.value, "keep-alive")
  }

  predicate Upgrades(h: Header) {
    SpellsWord(h.name, "upgrade") && h.value != []
  }

  /** The header that announces chunks, in the one spelling the parser knows. */
  predicate Chunked(h: Header) {
    && |h.name| == 17 && h.name[0] in {84, 116}
    && (forall i :: 1 <= i < 17 ==> h.name[i] == "Transfer-Encoding"[i] as int)
    && |h.value| >= 7 && h.value[0] in {67, 99} && (forall i :: 1 <= i < 7 ==> h.value[i] == "chunked"[i] as int)
    && forall i :: 7 <= i < |h.value| ==> h.value[i] == SP
  }

  /** A token octet that the parser reads as a small letter or a hyphen. */
  lemma TokenIs(ch: Byte, c: char)
    requires 'a' <= c <= 'z' || c == '-'
    ensures Token(ch) == c as int <==> ch == c as int || ('a' <= c <= 'z' && ch == c as int - 32)
  {}

  lemma LowerIs(ch: Byte, c: char)
    requires ('a' <= c <= 'z' || c == '-') && ch != CR
    ensures Lower(ch) == c as int <==> ch == c as int || ('a' <= c <= 'z' && ch == c as int - 32)
  {}

  lemma NameIs(h: HeaderState, s: seq<Byte>, w: string)
    requires w == Word(h) && forall i :: 0 <= i < |w| ==> 'a' <= w[i] <= 'z' || w[i] == '-'
    requires h.HMatchingConnection? || h.HMatchingProxyConnection? || h.HMatchingContentLength? || h.HMatchingUpgrade?
    ensures Spells(h, s) <==> SpellsWord(s, w)
  {
    hide Word, Token;
    forall i | 0 <= i < |w| && |s| == |w|
      ensures Reads(h, i, s[i]) == CharAt(w, i)
        <==> s[i] == w[i] as int || ('a' <= w[i] <= 'z' && s[i] == w[i] as int - 32)
    {
      TokenIs(s[i], w[i]);
    }
  }

  lemma ValueIs(h: HeaderState, s: seq<Byte>, w: string)
    requires w == Word(h) && forall i :: 0 <= i < |w| ==> 'a' <= w[i] <= 'z' || w[i] == '-'
    requires (h.HMatchingConnectionKeepAlive? || h.HMatchingConnectionClose?) && CR !in s
    ensures Spells(h, s) <==> SpellsWord(s, w)
  {
    hide Word, Lower;
    forall i | 0 <= i < |w| && |s| == |w|
      ensures Reads(h, i, s[i]) == CharAt(w, i)
        <==> s[i] == w[i] as int || ('a' <= w[i] <= 'z' && s[i] == w[i] as int - 32)
    {
      assert s[i] in s;
      LowerIs(s[i], w[i]);
    }
  }

  lemma Words()
    ensures Word(HMatchingConnection) == "connection" && Word(HMatchingProxyConnection) == "proxy-connection"
    ensures Word(HMatchingContentLength) == "content-length" && Word(HMatchingUpgrade) == "upgrade"
    ensures Word(HMatchingConnectionKeepAlive) == "keep-alive" && Word(HMatchingConnectionClose) == "close"
    ensures Word(HMatchingTransferEncoding) == "Transfer-Encoding"
    ensures Word(HMatchingTransferEncodingChunked) == "chunked"
  {}

  lemma PaddedIs(h: HeaderState, v: seq<Byte>, w: string)
    requires w == Word(h) && forall i :: 0 <= i < |w| ==> 'a' <= w[i] <= 'z' || w[i] == '-'
    requires (h.HMatchingConnectionKeepAlive? || h.HMatchingConnectionClose?) && CR !in v
    ensures SpellsPadded(h, v) <==> PaddedWord(v, w)
  {
    hide Word, Spells, SpellsWord;
    if |w| <= |v| {
      assert forall c :: c in v[..|w|] ==> c in v;
      ValueIs(h, v[..|w|], w);
    }
  }

  lemma CodingIs(name: seq<Byte>)
    ensures Spells(HMatchingTransferEncoding, name) <==>
      |name| == 17 && name[0] in {84, 116} && forall i :: 1 <= i < 17 ==> name[i] == "Transfer-Encoding"[i] as int
  {
    hide Word;
    Words();
    var w := "Transfer-Encoding";
    assert |w| == 17 && w[0] == 'T';
    if |name| == 17 {
      forall i | 1 <= i < 17
        ensures Reads(HMatchingTransferEncoding, i, name[i]) == CharAt(w, i) <==> name[i] == w[i] as int
      {}
    }
  }

  lemma ChunkedIs(v: seq<Byte>)
    ensures SpellsPadded(HMatchingTransferEncodingChunked, v) <==>
      && |v| >= 7 && v[0] in {67, 99} && (forall i :: 1 <= i < 7 ==> v[i] == "chunked"[i] as int)
      && forall i :: 7 <= i < |v| ==> v[i] == SP
  {
    hide Word;
    Words();
    var w := "chunked";
    assert |w| == 7 && w[0] == 'c';
    if |v| >= 7 {
      var s := v[..7];
      assert forall i :: 0 <= i < 7 ==> s[i] == v[i];
      forall i | 1 <= i < 7
        ensures Reads(HMatchingTransferEncodingChunked, i, s[i]) == CharAt(w, i) <==> v[i] == w[i] as int
      {}
    }
  }

  lemma NoReturn(h: Header)
    requires IsHeader(h)
    ensures CR !in h.value
  {}

  /** What a header line does to the flags, by its words. */
  lemma LineSays(f: Flags, h: Header)
    requires IsHeader(h)
    ensures var g := LineFlags(f, h.name, h.value);
      && (g.close <==> f.close || Closes(h)) && (g.keepAlive <==> f.keepAlive || Keeps(h))
      && (g.chunked <==> f.chunked || Chunked(h)) && (g.upgrade <==> f.upgrade || Upgrades(h))
      && g.trailing == f.trailing
  {
    hide Word, Spells, SpellsPadded, SpellsWord, PaddedWord;
    Words();
    NoReturn(h);
    NameIs(HMatchingConnection, h.name, "connection");
    NameIs(HMatchingProxyConnection, h.name, "proxy-connection");
    NameIs(HMatchingUpgrade, h.name, "upgrade");
    PaddedIs(HMatchingConnectionClose, h.value, "close");
    PaddedIs(HMatchingConnectionKeepAlive, h.value, "keep-alive");
    CodingIs(h.name);
    ChunkedIs(h.value);
  }

  lemma LengthSays(h: Header)
    requires IsLength(h)
    ensures SpellsWord(h.name, "content-length") && !Closes(h) && !Keeps(h) && !Chunked(h) && !Upgrades(h)
  {
    hide Word, Spells;
    Words();
    NameIs(HMatchingContentLength, h.name, "content-length");
    assert |h.name| == 14;
  }

  /** What the lines of a block do to the flags. */
  lemma {:induction false} BlockSays(f: Flags, hs: seq<Header>)
    requires forall h :: h in hs ==> IsHeader(h)
    ensures var g := BlockFlags(f, hs);
      && (g.close <==> f.close || exists h :: h in hs && Closes(h))
      && (g.keepAlive <==> f.keepAlive || exists h :: h in hs && Keeps(h))
      && (g.chunked <==> f.chunked || exists h :: h in hs && Chunked(h))
      && (g.upgrade <==> f.upgrade || exists h :: h in hs && Upgrades(h))
      && g.trailing == f.trailing
    decreases |hs|
  {
    hide IsHeader, IsLength, LineFlags, Closes, Keeps, Chunked, Upgrades;
    if hs != [] {
      var front, h := hs[..|hs| - 1], hs[|hs| - 1];
      assert hs == front + [h];
      assert forall k :: k in hs <==> k in front || k == h;
      BlockSays(f, front);
      if IsLength(h) { LengthSays(h); } else { LineSays(BlockFlags(f, front), h); }
    }
  }

  // ---- whole requests ----

  /** The connection is to be closed behind a request of this version with these lines in its headers and trailer. */
  ghost predicate IsLastOne(major: nat, minor: nat, hs: seq<Header>) {
    if major >= 1 && minor >= 1 then exists h :: h in hs && Closes(h) else !exists h :: h in hs && Keeps(h)
  }

  lemma StateSays(p: Parser, major: nat, minor: nat, hs: seq<Header>)
    requires forall h :: h in hs ==> IsHeader(h)
    requires p.httpMajor == major && p.httpMinor == minor
    requires p.flags.close == BlockFlags(NO_FLAGS, hs).close && p.flags.keepAlive == BlockFlags(NO_FLAGS, hs).keepAlive
    ensures Closing(p.httpMajor, p.httpMinor, p.flags) <==> IsLastOne(major, minor, hs)
  {
    hide IsHeader, BlockFlags, Closes, Keeps;
    BlockSays(NO_FLAGS, hs);
  }

  /** The octets of a request up to the line feed that ends its headers. */
  function Head(w: seq<Byte>, t: seq<Byte>, major: seq<Byte>, minor: seq<Byte>, hs: seq<Header>): seq<Byte> {
    RequestLine(w, t, major, minor) + HeaderBlock(hs) + [CR]
  }

  /** The callbacks up to there. */
  function HeadTrace(before: seq<Event>, t: seq<Byte>, hs: seq<Header>): seq<Event> {
    EmitLines(Emit(Emit(before, OnMessageBegin), OnUrl(t)), hs)
  }

  /** A request line with one of the methods, any target and version, and header lines, in the limit of 80 kB. */
  ghost predicate IsHead(name: string, m: Method, t: seq<Byte>, major: seq<Byte>, minor: seq<Byte>, hs: seq<Header>,
                         before: nat) {
    && IsMethod(name, m) && IsTarget(m, t) && IsVersion(major) && major[0] != '0' as int && IsVersion(minor)
    && IsBlock(hs) && before + |Head(Octets(name), t, major, minor, hs)| + 1 <= 81920
  }

  /** The parser in front of that line feed. */
  lemma RunHead(c: Conn, name: string, m: Method, t: seq<Byte>, major: seq<Byte>, minor: seq<Byte>, hs: seq<Header>)
    requires c.stop.Go? && c.p.state.StartReq? && !c.p.setContentLength
    requires IsHead(name, m, t, major, minor, hs, c.p.nread)
    ensures var r := Run(c, Head(Octets(name), t, major, minor, hs));
      && r.stop.Go? && r.p.state.HeadersAlmostDone? && r.p.nread < MAX_HEADER_SIZE
      && r.used == c.used + |Head(Octets(name), t, major, minor, hs)|
      && r.p.verb == m && r.p.httpMajor == NumberOf(major) && r.p.httpMinor == NumberOf(minor)
      && r.p.flags == BlockFlags(NO_FLAGS, hs) && r.p.contentLength == BlockLength(ULLONG_MAX, hs)
      && r.p.setContentLength == HasLength(hs)
      && r.trace == HeadTrace(c.trace, t, hs)
  {
    hide Run, Step, Emit, IsTarget, Means, Octets, RequestLine, HeaderBlock, BlockFlags, BlockLength, EmitLines,
         IsBlock, HasLength;
    var w := Octets(name);
    var line := RequestLine(w, t, major, minor);
    NameIsWord(name, m);
    RunRequestLine(c, w, m, t, major, minor);
    var c1 := Run(c, line);
    RunConcat(c, line, HeaderBlock(hs));
    RunLines(c1, hs);
    RunSnoc(c, line + HeaderBlock(hs), CR);
    StepBlockCR(Run(c1, HeaderBlock(hs)).p);
  }

  /** The length the first lines announce. */
  lemma Announces(hs: seq<Header>)
    requires IsBlock(hs)
    ensures HasLength(hs) ==> Announced(BlockLength(ULLONG_MAX, hs)) == BlockLength(0, hs) < ULLONG_MAX
    ensures !HasLength(hs) ==> BlockLength(ULLONG_MAX, hs) == ULLONG_MAX && BlockLength(0, hs) == 0
  {
    hide BlockLength, IsHeader;
    if HasLength(hs) {
      LengthStands(ULLONG_MAX, 0, hs);
      LengthSmall(hs);
    } else {
      NoLength(ULLONG_MAX, hs);
      NoLength(0, hs);
    }
  }

  lemma {:induction false} LengthSmall(hs: seq<Header>)
    requires forall h :: h in hs ==> IsHeader(h)
    ensures BlockLength(0, hs) < ULLONG_MAX
    decreases |hs|
  {
    if hs != [] {
      var front, h := hs[..|hs| - 1], hs[|hs| - 1];
      assert h in hs && forall k :: k in front ==> k in hs;
      if !IsLength(h) { LengthSmall(front); }
    }
  }

  /** A whole request, in any cut: its method, target and version, its header lines and its body are reported, in that
      order and once each, and then that it is complete.  From version 1.1 on the connection is closed behind it
      exactly if a Connection or Proxy-Connection line says close, before that exactly if none says keep-alive. */
  lemma RequestTaken(c: Conn, name: string, m: Method, t: seq<Byte>, major: seq<Byte>, minor: seq<Byte>,
                     hs: seq<Header>, body: seq<Byte>, parts: seq<seq<Byte>>)
    requires c.stop.Go? && c.p.state.StartReq? && !c.p.setContentLength
    requires IsHead(name, m, t, major, minor, hs, c.p.nread) && m != CONNECT
    requires BlockLength(0, hs) == |body| && !exists h :: h in hs && (Chunked(h) || Upgrades(h))
    requires Flatten(parts) == Head(Octets(name), t, major, minor, hs) + [LF] + body
    ensures var r, p := RunParts(c, parts), Run(c, Head(Octets(name), t, major, minor, hs)).p;
      && p.verb == m && p.httpMajor == NumberOf(major) && p.httpMinor == NumberOf(minor)
      && r == Completed(AtEnd(p, 1), HeadTrace(c.trace, t, hs), body, c.used + |Flatten(parts)|)
      && r.p.state == if IsLastOne(NumberOf(major), NumberOf(minor), hs) then Dead else StartReq
  {
    hide Run, Step, Emit, IsHead, Head, RunParts, EmitLines, BlockFlags, BlockLength, HasLength, Chunked, Upgrades,
         IsLastOne, Flatten;
    var head := Head(Octets(name), t, major, minor, hs);
    GoodBlock(name, m, t, major, minor, hs, c.p.nread);
    RunHead(c, name, m, t, major, minor, hs);
    BlockSays(NO_FLAGS, hs);
    Announces(hs);
    CountedBody(c, head, body, parts);
    StateSays(AtEnd(Run(c, head).p, 1), NumberOf(major), NumberOf(minor), hs);
  }

  lemma GoodBlock(name: string, m: Method, t: seq<Byte>, major: seq<Byte>, minor: seq<Byte>, hs: seq<Header>, n: nat)
    requires IsHead(name, m, t, major, minor, hs, n)
    ensures IsVersion(major) && IsVersion(minor) && IsBlock(hs) && forall h :: h in hs ==> IsHeader(h)
  {
    hide IsHeader, Head;
  }

  lemma TrailerSays(f: Flags, major: nat, minor: nat, hs: seq<Header>, trailer: seq<Header>)
    requires (forall h :: h in hs ==> IsHeader(h)) && (forall h :: h in trailer ==> IsHeader(h))
    requires f == BlockFlags(NO_FLAGS, hs)
    ensures Closing(major, minor, BlockFlags(f.(trailing := true), trailer)) <==> IsLastOne(major, minor, hs + trailer)
  {
    hide IsHeader, BlockFlags, Closes, Keeps, Chunked, Upgrades;
    BlockSays(NO_FLAGS, hs);
    BlockSays(f.(trailing := true), trailer);
    assert forall h :: h in hs + trailer <==> h in hs || h in trailer;
  }

  /** The same for a request in chunks, of whatever sizes, extensions and trailer; Connection lines count in the
      trailer as well. */
  lemma RequestInChunks(c: Conn, name: string, m: Method, t: seq<Byte>, major: seq<Byte>, minor: seq<Byte>,
                        hs: seq<Header>, ks: seq<ChunkText>, z: LastText, parts: seq<seq<Byte>>)
    requires c.stop.Go? && c.p.state.StartReq? && !c.p.setContentLength
    requires IsHead(name, m, t, major, minor, hs, c.p.nread) && m != CONNECT
    requires (exists h :: h in hs && Chunked(h)) && !HasLength(hs) && !exists h :: h in hs && Upgrades(h)
    requires (forall k :: k in ks ==> IsChunk(k)) && IsLast(z)
    requires Flatten(parts) == Head(Octets(name), t, major, minor, hs) + [LF] + ChunkWires(ks) + LastWire(z)
    ensures var r, p := RunParts(c, parts), Run(c, Head(Octets(name), t, major, minor, hs)).p;
      && p.verb == m && p.httpMajor == NumberOf(major) && p.httpMinor == NumberOf(minor)
      && r.trace == ChunkedTrace(AtEnd(p, 1), HeadTrace(c.trace, t, hs), ks, z)
      && r.stop.Go? && r.used == c.used + |Flatten(parts)|
      && r.p.state == if IsLastOne(NumberOf(major), NumberOf(minor), hs + z.trailer) then Dead else StartReq
  {
    hide Run, Step, Emit, IsHead, Head, RunParts, EmitLines, BlockFlags, BlockLength, HasLength, Chunked, Upgrades,
         IsLastOne, Flatten, ChunkWires, LastWire, IsChunk, Datas, IsHexText, HexValue, IsExtension;
    var head := Head(Octets(name), t, major, minor, hs);
    GoodBlock(name, m, t, major, minor, hs, c.p.nread);
    RunHead(c, name, m, t, major, minor, hs);
    BlockSays(NO_FLAGS, hs);
    ChunkedBody(c, head, ks, z, parts);
    var q := Run(c, head).p;
    TrailerSays(q.flags, NumberOf(major), NumberOf(minor), hs, z.trailer);
  }

  lemma StepUpgradeLF(p: Parser)
    requires p.state.HeadersAlmostDone? && p.nread < MAX_HEADER_SIZE && !p.flags.trailing
    requires (p.flags.upgrade || p.verb == CONNECT) && !(p.setContentLength && p.flags.chunked)
    ensures var q := p.(nread := p.nread + 1, state := HeadersDone, upgrade := true);
      Step(p, LF) == Out(q.(nread := 0, state := NewMessage(q)), Two(OnHeadersComplete(q), OnMessageComplete), Upgraded)
  {
    hide StepStart, StepUrl, StepVersion, StepChunk, StepField, StepValueStart, StepValue, StepLineEnd, StepBody;
  }

  /** A request for another protocol, by CONNECT or an Upgrade line, ends at its headers: what comes behind them is
      left to that protocol. */
  lemma RequestUpgrades(c: Conn, name: string, m: Method, t: seq<Byte>, major: seq<Byte>, minor: seq<Byte>,
                        hs: seq<Header>, rest: seq<Byte>)
    requires c.stop.Go? && c.p.state.StartReq? && !c.p.setContentLength
    requires IsHead(name, m, t, major, minor, hs, c.p.nread)
    requires m == CONNECT || exists h :: h in hs && Upgrades(h)
    requires !(HasLength(hs) && exists h :: h in hs && Chunked(h))
    ensures var head := Head(Octets(name), t, major, minor, hs);
      var r, q := Run(c, head + [LF] + rest), AtEnd(Run(c, head).p, 1).(upgrade := true);
      && r.stop.Upgraded? && r.used == c.used + |head| + 1
      && r.trace == Emit(Emit(HeadTrace(c.trace, t, hs), OnHeadersComplete(q)), OnMessageComplete)
  {
    hide Run, Step, Emit, IsHead, Head, EmitLines, BlockFlags, BlockLength, HasLength, Chunked, Upgrades, NewMessage;
    var head := Head(Octets(name), t, major, minor, hs);
    GoodBlock(name, m, t, major, minor, hs, c.p.nread);
    RunHead(c, name, m, t, major, minor, hs);
    BlockSays(NO_FLAGS, hs);
    RunSnoc(c, head, LF);
    StepUpgradeLF(Run(c, head).p);
    RunConcat(c, head + [LF], rest);
    RunStopped(Run(c, head + [LF]), rest);
  }

  lemma StepBothLF(p: Parser)
    requires p.state.HeadersAlmostDone? && p.nread < MAX_HEADER_SIZE && !p.flags.trailing
    requires p.setContentLength && p.flags.chunked
    ensures Step(p, LF).stop.Refused? && Step(p, LF).calls.NoCall?
  {
    hide StepStart, StepUrl, StepVersion, StepChunk, StepField, StepValueStart, StepValue, StepLineEnd, StepBody;
  }

  /** A request that announces both a length and chunks is refused at the end of its headers. */
  lemma RequestRefused(c: Conn, name: string, m: Method, t: seq<Byte>, major: seq<Byte>, minor: seq<Byte>,
                       hs: seq<Header>, rest: seq<Byte>)
    requires c.stop.Go? && c.p.state.StartReq? && !c.p.setContentLength
    requires IsHead(name, m, t, major, minor, hs, c.p.nread)
    requires HasLength(hs) && exists h :: h in hs && Chunked(h)
    ensures var r := Run(c, Head(Octets(name), t, major, minor, hs) + [LF] + rest);
      r.stop.Refused? && r.trace == HeadTrace(c.trace, t, hs)
  {
    hide Run, Step, Emit, IsHead, Head, EmitLines, BlockFlags, BlockLength, HasLength, Chunked, Upgrades, NewMessage;
    var head := Head(Octets(name), t, major, minor, hs);
    GoodBlock(name, m, t, major, minor, hs, c.p.nread);
    RunHead(c, name, m, t, major, minor, hs);
    BlockSays(NO_FLAGS, hs);
    RunSnoc(c, head, LF);
    StepBothLF(Run(c, head).p);
    RunConcat(c, head + [LF], rest);
    RunStopped(Run(c, head + [LF]), rest);
  }

  /** Behind a request that closes the connection nothing is taken but line ends. */
  lemma ClosedTakesNothing(c: Conn, ch: Byte)
    requires c.stop.Go? && c.p.state.Dead? && c.p.nread < MAX_HEADER_SIZE
    ensures if ch == CR || ch == LF then Run(c, [ch]).stop.Go? && Run(c, [ch]).p.state.Dead?
            else Run(c, [ch]).stop.Failed? && Run(c, [ch]).p.errno == CLOSED_CONNECTION
    ensures Run(c, [ch]).trace == c.trace
  {
    hide Run, StepUrl, StepVersion, StepChunk, StepField, StepValueStart, StepValue, StepLineEnd, StepHeadersEnd,
         StepBody;
    RunOne(c, ch);
  }

  /** Of the octets in front of a body 80 kB are taken, and no more. */
  lemma TooLong(c: Conn, ch: Byte)
    requires c.stop.Go? && ParsingHeader(c.p.state) && c.p.nread >= 81920
    ensures Run(c, [ch]).stop.Failed? && Run(c, [ch]).p.errno == HEADER_OVERFLOW
  {
    hide Run, Dispatch;
    RunOne(c, ch);
  }
}
