/** The header block of a response, as the reader of header lines takes it. */
module ResponseWire {
  import opened Bytes
  import opened Pieces
  import opened HttpSpec
  import opened HttpRuns
  import opened ResponseHeaders
  import opened ResponseWriter
  import M = HttpMessages
  import R = HttpRequests

  function Field(name: seq<Byte>, value: seq<Byte>): M.Header {
    M.Header(name, [SP], value)
  }

  function Fields(hs: seq<HttpHeader>): (r: seq<M.Header>)
    ensures |r| == |hs|
  {
    if hs == [] then [] else Fields(hs[..|hs| - 1]) + [Field(hs[|hs| - 1].0, hs[|hs| - 1].1)]
  }

  /** The header fields of a response: the server's own in front, then those of the application but Server and Date,
      then how the body comes and what becomes of the connection. */
  function FieldsOf(c: Client, chunked: bool): seq<M.Header> {
    [Field(Ascii("Server"), Ascii("meinheld/1.0.2")), Field(Ascii("Date"), c.date)] + Fields(Kept(c.headers))
    + (if chunked then [Field(Ascii("Transfer-Encoding"), Ascii("chunked"))] else [])
    + [Field(Ascii("Connection"),
             if c.statusCode == 101 then Ascii("upgrade")
             else if c.keepAlive then Ascii("Keep-Alive") else Ascii("close"))]
  }

  lemma LineIs(name: seq<Byte>, value: seq<Byte>)
    ensures HeaderLine(name, value) == M.LineOf(Field(name, value))
  {
    assert Ascii(": ") == [58] + [SP];
    assert name + ([58] + [SP]) + value + CRLF == name + [58] + [SP] + value + CRLF;
  }

  lemma {:induction false} BlockMore(a: seq<M.Header>, b: seq<M.Header>)
    ensures M.HeaderBlock(a + b) == M.HeaderBlock(a) + M.HeaderBlock(b)
    decreases |b|
  {
    hide M.LineOf;
    if b == [] {
      assert a + b == a;
    } else {
      BlockMore(a, b[..|b| - 1]);
      assert (a + b)[..|a + b| - 1] == a + b[..|b| - 1];
    }
  }

  lemma BlockOne(h: M.Header)
    ensures M.HeaderBlock([h]) == M.LineOf(h)
  {
    hide M.LineOf;
    assert [h][..0] == [];
  }

  lemma {:induction false} FieldsAre(hs: seq<HttpHeader>)
    ensures HeaderLines(hs) == M.HeaderBlock(Fields(hs))
    decreases |hs|
  {
    hide M.LineOf, HeaderLine;
    if hs != [] {
      var front, h := hs[..|hs| - 1], hs[|hs| - 1];
      FieldsAre(front);
      LineIs(h.0, h.1);
      assert Fields(hs)[..|hs| - 1] == Fields(front);
    }
  }

  /** The header block is the status line, those fields as header lines, and the empty line. */
  lemma HeadIsBlock(c: Client, chunked: bool)
    ensures c.Head(chunked) == c.statusLine + (M.HeaderBlock(FieldsOf(c, chunked)) + CRLF)
  {
    hide M.LineOf, HeaderLine, M.HeaderBlock, HeaderLines, Kept, Fields, Ascii, CRLF;
    var server, date := Field(Ascii("Server"), Ascii("meinheld/1.0.2")), Field(Ascii("Date"), c.date);
    var coding := if chunked then [Field(Ascii("Transfer-Encoding"), Ascii("chunked"))] else [];
    var last := Field(Ascii("Connection"), c.ConnectionValue());
    LineIs(server.name, server.value);
    LineIs(date.name, date.value);
    LineIs(last.name, last.value);
    LineIs(Ascii("Transfer-Encoding"), Ascii("chunked"));
    FieldsAre(Kept(c.headers));
    BlockOne(server);
    BlockOne(date);
    BlockOne(last);
    BlockOne(Field(Ascii("Transfer-Encoding"), Ascii("chunked")));
    NoBlock();
    BlockMore([server], [date]);
    assert [server] + [date] == [server, date];
    BlockMore([server, date], Fields(Kept(c.headers)));
    BlockMore([server, date] + Fields(Kept(c.headers)), coding);
    BlockMore([server, date] + Fields(Kept(c.headers)) + coding, [last]);
    assert FieldsOf(c, chunked) == [server, date] + Fields(Kept(c.headers)) + coding + [last];
    var a, b, k, d, e := M.LineOf(server), M.LineOf(date), HeaderLines(Kept(c.headers)),
                         M.HeaderBlock(coding), M.LineOf(last);
    assert c.Head(chunked) == (c.statusLine + a + b) + k + (d + e + CRLF);
    Regrouped(c.statusLine, a, b, k, d, e);
  }

  lemma Regrouped(s: seq<Byte>, a: seq<Byte>, b: seq<Byte>, k: seq<Byte>, d: seq<Byte>, e: seq<Byte>)
    ensures (s + a + b) + k + (d + e + CRLF) == s + (a + b + k + d + e + CRLF)
  {
    hide CRLF;
  }

  lemma NoBlock()
    ensures M.HeaderBlock([]) == []
  {}

  /** The application's own fields leave the framing and the connection alone. */
  ghost predicate Neutral(c: Client) {
    forall h :: h in Fields(Kept(c.headers)) ==> !R.Closes(h) && !R.Keeps(h) && !R.Chunked(h) && !R.Upgrades(h)
  }

  /** A reader of the block learns from it that the body comes in chunks exactly if it does, and that the connection
      is to be closed, or kept, as the server does. */
  lemma ReaderTold(c: Client, chunked: bool)
    requires (forall h :: h in FieldsOf(c, chunked) ==> M.IsHeader(h)) && Neutral(c)
    ensures var f := M.BlockFlags(NO_FLAGS, FieldsOf(c, chunked));
      && (f.chunked <==> chunked) && (f.close <==> c.statusCode != 101 && !c.keepAlive)
      && (f.keepAlive <==> c.statusCode != 101 && c.keepAlive) && !f.upgrade
  {
    hide M.IsHeader, M.BlockFlags, Kept, Fields, R.Closes, R.Keeps, R.Chunked, R.Upgrades, R.PaddedWord, Ascii;
    var hs := FieldsOf(c, chunked);
    R.BlockSays(NO_FLAGS, hs);
    OtherNames(Ascii("meinheld/1.0.2"));
    OtherNames(c.date);
    CodingField();
    var last := hs[|hs| - 1];
    ConnectionField(last.value);
    ConnectionValues();
    assert last in hs;
    if chunked { assert Field(Ascii("Transfer-Encoding"), Ascii("chunked")) in hs; }
  }

  predicate Silent(h: M.Header) {
    !R.Closes(h) && !R.Keeps(h) && !R.Chunked(h) && !R.Upgrades(h)
  }

  /** What the server's own fields say. */
  lemma OtherNames(v: seq<Byte>)
    ensures Silent(Field(Ascii("Server"), v)) && Silent(Field(Ascii("Date"), v))
  {
    hide R.PaddedWord;
    assert |Ascii("Server")| == 6 && |Ascii("Date")| == 4;
  }

  lemma CodingField()
    ensures var h := Field(Ascii("Transfer-Encoding"), Ascii("chunked"));
      !R.Closes(h) && !R.Keeps(h) && R.Chunked(h) && !R.Upgrades(h)
  {
    hide R.PaddedWord;
    assert |Ascii("Transfer-Encoding")| == 17 && |Ascii("chunked")| == 7;
    assert Ascii("Transfer-Encoding")[0] == 84;
  }

  lemma ConnectionField(v: seq<Byte>)
    ensures var h := Field(Ascii("Connection"), v);
      && (R.Closes(h) <==> R.PaddedWord(v, "close")) && (R.Keeps(h) <==> R.PaddedWord(v, "keep-alive"))
      && !R.Chunked(h) && !R.Upgrades(h)
  {
    hide R.PaddedWord;
    assert |Ascii("Connection")| == 10 && Ascii("Connection")[0] == 67;
  }

  lemma ConnectionValues()
    ensures !R.PaddedWord(Ascii("upgrade"), "close") && !R.PaddedWord(Ascii("upgrade"), "keep-alive")
    ensures !R.PaddedWord(Ascii("Keep-Alive"), "close") && R.PaddedWord(Ascii("Keep-Alive"), "keep-alive")
    ensures R.PaddedWord(Ascii("close"), "close") && !R.PaddedWord(Ascii("close"), "keep-alive")
  {
    var u, k, c := Ascii("upgrade"), Ascii("Keep-Alive"), Ascii("close");
    assert u[..5][0] == 117 && k[..5][0] == 75;
    assert k[..10] == k && c[..5] == c;
  }
}
