/** Whole messages in chunks: any sizes, extensions and trailers a client may write. */
module HttpChunks {
  import opened Bytes
  import opened Pieces
  import opened HttpSpec
  import opened HttpRuns
  import opened HttpMessages

  function ChunkWires(ks: seq<ChunkText>): seq<Byte> {
    if ks == [] then [] else ChunkWires(ks[..|ks| - 1]) + ChunkWire(ks[|ks| - 1])
  }

  /** What the chunks carry. */
  function Datas(ks: seq<ChunkText>): (r: seq<seq<Byte>>)
    ensures |r| == |ks|
  {
    if ks == [] then [] else Datas(ks[..|ks| - 1]) + [ks[|ks| - 1].data]
  }

  /** The chunk that ends a body: a size of nothing but zeros, and trailer fields. */
  datatype LastText = LastText(size: seq<Byte>, ext: seq<Byte>, trailer: seq<Header>)

  ghost predicate IsLast(z: LastText) {
    && IsHexText(z.size) && HexValue(z.size) == 0 && IsExtension(z.ext) && |z.size| + |z.ext| + 2 <= MAX_HEADER_SIZE
    && IsBlock(z.trailer) && |HeaderBlock(z.trailer)| + 2 <= MAX_HEADER_SIZE
  }

  function LastWire(z: LastText): seq<Byte> {
    z.size + z.ext + CRLF + HeaderBlock(z.trailer) + CRLF
  }

  lemma {:induction false} RunChunkTexts(c: Conn, ks: seq<ChunkText>)
    requires c.stop.Go? && c.p.state.ChunkSizeStart? && c.p.nread == 0
    requires forall k :: k in ks ==> IsChunk(k)
    ensures Run(c, ChunkWires(ks)) == Conn(if ks == [] then c.p else c.p.(contentLength := 0),
      EmitBodies(c.trace, Datas(ks)), Go, c.used + |ChunkWires(ks)|)
  {
    hide Run, Emit, IsChunk, ChunkWire;
    RunNothing(c);
    if ks != [] {
      var front, k := ks[..|ks| - 1], ks[|ks| - 1];
      RunChunkTexts(c, front);
      RunConcat(c, ChunkWires(front), ChunkWire(k));
      RunAnyChunk(Run(c, ChunkWires(front)), k);
      assert Datas(ks)[..|ks| - 1] == Datas(front);
    }
  }

  /** The last chunk with its trailer, whose fields are reported like headers and whose flags count. */
  lemma RunLast(c: Conn, z: LastText)
    requires c.stop.Go? && c.p.state.ChunkSizeStart? && c.p.nread == 0 && IsLast(z)
    requires !(c.p.setContentLength && HasLength(z.trailer))
    ensures var r := Run(c, LastWire(z));
      && r.stop.Go? && r.used == c.used + |LastWire(z)|
      && r.trace == Emit(EmitLines(c.trace, z.trailer), OnMessageComplete)
      && r.p.state == NewMessage(c.p.(flags := BlockFlags(c.p.flags.(trailing := true), z.trailer)))
  {
    hide Run, Step, Emit, IsHexText, HexValue, IsExtension, IsBlock, BlockFlags, HasLength, BlockLength, EmitLines,
         HeaderBlock, CRLF;
    CrlfLength();
    RunSizeLine(c, z.size, z.ext);
    var c1 := Run(c, z.size + z.ext + CRLF);
    RunConcat(c, z.size + z.ext + CRLF, HeaderBlock(z.trailer));
    TrailerLines(c1, z.trailer);
    var c2 := Run(c1, HeaderBlock(z.trailer));
    RunConcat(c, z.size + z.ext + CRLF + HeaderBlock(z.trailer), CRLF);
    RunTrailerEnd(c2);
  }

  lemma TrailerLines(c: Conn, hs: seq<Header>)
    requires c.stop.Go? && c.p.state.HeaderFieldStart? && c.p.nread == 0 && c.p.flags.trailing
    requires IsBlock(hs) && !(c.p.setContentLength && HasLength(hs)) && |HeaderBlock(hs)| + 2 <= MAX_HEADER_SIZE
    ensures var r := Run(c, HeaderBlock(hs));
      && AfterLines(c, hs, r) && AtLineStart(r.p) && r.p.flags.trailing && r.p.nread + 2 <= MAX_HEADER_SIZE
  {
    hide Run, Emit, IsBlock, HasLength, BlockLength, EmitLines, HeaderBlock, BlockFlags;
    RunLines(c, hs);
    TrailingStays(c.p.flags, hs);
  }

  lemma {:induction false} TrailingStays(f: Flags, hs: seq<Header>)
    ensures BlockFlags(f, hs).trailing == f.trailing
    decreases |hs|
  {
    hide IsLength;
    if hs != [] { TrailingStays(f, hs[..|hs| - 1]); }
  }

  lemma StepChunkedLF(p: Parser)
    requires AtBlockEnd(p) && p.nread < MAX_HEADER_SIZE && p.flags.chunked && !p.setContentLength
    requires !p.flags.trailing && !p.flags.upgrade && p.verb != CONNECT
    ensures var q := p.(nread := p.nread + 1, state := HeadersDone, upgrade := false);
      Step(p, LF) == Out(q.(nread := 0, state := ChunkSizeStart), One(OnHeadersComplete(q)), Go)
  {
    hide StepStart, StepUrl, StepVersion, StepChunk, FieldChar, StepValueStart, StepValue, StepLineEnd, StepBody;
  }

  /** The callbacks behind a header block: the headers callback sees q, the body is one, then the trailer's. */
  function ChunkedTrace(q: Parser, t: seq<Event>, ks: seq<ChunkText>, z: LastText): seq<Event> {
    var u := Emit(t, OnHeadersComplete(q));
    Emit(EmitLines(if ks == [] then u else Emit(u, OnBody(Flatten(Datas(ks)))), z.trailer), OnMessageComplete)
  }

  predicate ClosingBehind(p: Parser, z: LastText) {
    Closing(p.httpMajor, p.httpMinor, BlockFlags(p.flags.(trailing := true), z.trailer))
  }

  /** Whatever octets lead up to the line feed that ends the header block of a message in chunks, and whatever the
      sizes, extensions and trailer its sender writes: what the chunks carry is delivered as it is, then the
      message completes, however the stream is cut; the connection is then at the next message, or closed, as the
      keep-alive rule says of the headers and the trailer. */
  lemma ChunkedBody(c: Conn, head: seq<Byte>, ks: seq<ChunkText>, z: LastText, parts: seq<seq<Byte>>)
    requires var e := Run(c, head);
      && e.stop.Go? && AtBlockEnd(e.p) && e.p.nread < MAX_HEADER_SIZE && e.p.flags.chunked && !e.p.setContentLength
      && !e.p.flags.trailing && !e.p.flags.upgrade && e.p.verb != CONNECT
    requires (forall k :: k in ks ==> IsChunk(k)) && IsLast(z)
    requires Flatten(parts) == head + [LF] + ChunkWires(ks) + LastWire(z)
    ensures var r, e := RunParts(c, parts), Run(c, head);
      && r.stop.Go? && r.used == e.used + 1 + |ChunkWires(ks)| + |LastWire(z)|
      && r.trace == ChunkedTrace(AtEnd(e.p, 1), e.trace, ks, z)
      && r.p.state == if ClosingBehind(e.p, z) then Dead else StartReq
  {
    hide Run, Emit, Step, AtBlockEnd, IsChunk, IsLast, ChunkWires, LastWire, EmitLines, BlockFlags, EmitBodies, Datas,
         HasLength, Flatten;
    BoundariesDoNotMatter(c, parts);
    RunConcat(c, head + [LF] + ChunkWires(ks), LastWire(z));
    RunConcat(c, head + [LF], ChunkWires(ks));
    RunSnoc(c, head, LF);
    StepChunkedLF(Run(c, head).p);
    var c1 := Run(c, head + [LF]);
    RunChunkTexts(c1, ks);
    RunLast(Run(c1, ChunkWires(ks)), z);
    NoBodies(c1.trace);
    if ks != [] { BodiesAreOne(c1.trace, Datas(ks)); } else { NoData(ks); }
    SameFlags(c1.p, Run(c1, ChunkWires(ks)).p, BlockFlags(c1.p.flags.(trailing := true), z.trailer));
  }

  lemma SameFlags(p: Parser, q: Parser, f: Flags)
    requires p.(contentLength := 0) == q.(contentLength := 0)
    ensures NewMessage(p.(flags := f)) == NewMessage(q.(flags := f))
  {}

  lemma NoBodies(t: seq<Event>)
    ensures EmitBodies(t, []) == t
  {}

  lemma NoData(ks: seq<ChunkText>)
    requires ks == []
    ensures Datas(ks) == []
  {}
}
