/** Two requests through one parser: what the first leaves behind for the second. */
module HttpConnections {
  import opened Bytes
  import opened Pieces
  import opened HttpSpec
  import opened HttpSafety
  import opened HttpHeaders
  import opened HttpRuns
  import opened HttpMessages
  import opened HttpRequestLine

  /** "GET / HTTP/1.1" and its line end. */
  const GET_LINE: seq<Byte> := RequestLine(Octets("GET"), [47], [49], [49])

  /** "Content-Length" */
  const LENGTH_NAME: seq<Byte> := [67, 111, 110, 116, 101, 110, 116, 45, 76, 101, 110, 103, 116, 104]

  lemma RunGetLine(c: Conn)
    requires c.stop.Go? && c.p.state.StartReq? && c.p.nread == 0
    ensures Run(c, GET_LINE) == AtHeaders(c, GET, [47], 1, 1, 4, 16) && |GET_LINE| == 16
  {
    hide Run, Emit, AtHeaders;
    NameIsWord("GET", GET);
    assert NumberOf([49]) == 1 by { assert [49][..0] == []; }
    assert IsVisible([47]) && IsPathTarget([47]);
    RunRequestLine(c, Octets("GET"), GET, [47], [49], [49]);
  }

  /** "Content-Length: " and a value. */
  function LengthHeader(value: seq<Byte>): Header {
    Header(LENGTH_NAME, [SP], value)
  }

  lemma LengthLetters()
    ensures |LENGTH_NAME| == 14 == |Word(HMatchingContentLength)|
    ensures forall i :: 0 <= i < 14 ==> Token(LENGTH_NAME[i]) == CharAt(Word(HMatchingContentLength), i) != 0
  {}

  lemma LengthSpelled()
    ensures IsName(LENGTH_NAME) && Spells(HMatchingContentLength, LENGTH_NAME) && IsPad([SP])
    ensures MatchName(LENGTH_NAME).0.HContentLength?
  {
    hide MatchName, Word, LENGTH_NAME, Token, CharAt;
    LengthLetters();
    var s := LENGTH_NAME;
    assert IsName(s);
    assert Spells(HMatchingContentLength, s);
    NameTold(s);
    assert NameState(HContentLength, s) <==> MatchName(s).0 == HContentLength;
  }

  /** The same request twice, "Content-Length: 0" in it.  A new parser takes it whole and is ready for another one,
      but that fails at its length when it goes through the same parser, as it does when both are read together.
      Where close_client has made a new parser in between it is taken like the first. */
  lemma SecondLengthFails()
    ensures var r := GET_LINE + HeaderBlock([LengthHeader([48])]) + CRLF;
      && Run(Fresh(), r).stop.Go? && Run(Fresh(), r).p.state.StartReq?
      && Run(Fresh(), r + r).stop.Failed? && Run(Fresh(), r + r).p.errno == INVALID_CONTENT_LENGTH
  {
    hide Run, Step, Emit, CRLF, HeaderBlock, GET_LINE, LENGTH_NAME, MatchName;
    var r := GET_LINE + HeaderBlock([LengthHeader([48])]) + CRLF;
    var second := GET_LINE + (LENGTH_NAME + [':' as int] + [SP]);
    FirstRequest();
    var c1 := Run(Fresh(), r);
    ToLength(c1);
    RunSnoc(c1, second, 48);
    DigitTaken(Run(c1, second).p, 48);
    UpToLength();
    RunConcat(Fresh(), r, r);
    RunConcat(c1, second + [48], CRLF + CRLF);
    RunStopped(Run(c1, second + [48]), CRLF + CRLF);
  }

  lemma UpToLength()
    ensures GET_LINE + HeaderBlock([LengthHeader([48])]) + CRLF
      == (GET_LINE + (LENGTH_NAME + [':' as int] + [SP]) + [48]) + (CRLF + CRLF)
  {
    hide CRLF, GET_LINE, LENGTH_NAME;
    var hs := [LengthHeader([48])];
    assert hs[..0] == [] && hs[0] == LengthHeader([48]);
    assert HeaderBlock(hs) == [] + LineOf(LengthHeader([48]));
  }

  /** From the start of a message to the first octet of its Content-Length. */
  lemma ToLength(c: Conn)
    requires c.stop.Go? && c.p.state.StartReq? && c.p.nread == 0
    ensures var r := Run(c, GET_LINE + (LENGTH_NAME + [':' as int] + [SP]));
      && r.stop.Go? && r.p.state.HeaderValueStart? && r.p.headerState.HContentLength? && r.p.nread < MAX_HEADER_SIZE
      && r.p.setContentLength == c.p.setContentLength
  {
    hide Run, Step, Emit, GET_LINE, MatchName, IsName, Spells;
    RunGetLine(c);
    RunConcat(c, GET_LINE, LENGTH_NAME + [':' as int] + [SP]);
    LengthSpelled();
    RunStart(Run(c, GET_LINE), LENGTH_NAME, [SP]);
  }

  lemma FirstRequest()
    ensures var r := Run(Fresh(), GET_LINE + HeaderBlock([LengthHeader([48])]) + CRLF);
      r.stop.Go? && r.p.state.StartReq? && r.p.nread == 0 && r.p.setContentLength
  {
    var hs := [LengthHeader([48])];
    hide Run, Emit, GET_LINE, IsName, Spells, CRLF, LENGTH_NAME, HeaderBlock, IsBlock, HasLength, BlockLength,
         BlockFlags, EmitLines, Completed;
    RunGetLine(Fresh());
    var c1 := Run(Fresh(), GET_LINE);
    ZeroBlock(NO_FLAGS);
    var s := HeaderBlock(hs) + CRLF;
    assert GET_LINE + HeaderBlock(hs) + CRLF == GET_LINE + s;
    RunConcat(Fresh(), GET_LINE, s);
    FlattenOne(s);
    assert s + [] == s;
    CountedMessage(c1, hs, [], [s]);
    BoundariesDoNotMatter(c1, [s]);
    Open(Run(c1, HeaderBlock(hs)).p, EmitLines(c1.trace, hs), c1.used + |s|);
  }

  lemma Open(p: Parser, t: seq<Event>, used: nat)
    requires p.httpMajor == 1 && p.httpMinor == 1 && !p.flags.close
    ensures var r := Completed(AtEnd(p, 2), t, [], used);
      r.stop.Go? && r.p.state.StartReq? && r.p.nread == 0 && r.p.setContentLength == p.setContentLength
  {}

  lemma ZeroBlock(f: Flags)
    ensures var hs := [LengthHeader([48])];
      IsBlock(hs) && HasLength(hs) && BlockLength(0, hs) == 0 && BlockFlags(f, hs) == f && |HeaderBlock(hs)| == 19
  {
    LengthSpelled();
    hide IsName, Spells;
    var h := LengthHeader([48]);
    var hs := [h];
    assert IsDigits([48]) && Decimal([48]) == 0;
    assert IsLength(h) && IsHeader(h);
    assert IsLength(hs[0]) && hs[..0] == [] && hs[|hs| - 1] == h && hs[..|hs| - 1] == [];
    assert BlockLength(0, hs) == LengthOf(h) && LengthOf(h) == 0;
    assert |LineOf(h)| == 19;
  }
}
