/** Whole runs of the parser: buffer boundaries, counted bodies, chunked bodies. */
module HttpRuns {
  import opened Bytes
  import opened Pieces
  import opened HttpSpec

  lemma {:induction false} RunConcat(c: Conn, a: seq<Byte>, b: seq<Byte>)
    ensures Run(c, a + b) == Run(Run(c, a), b)
  {
    hide Advance;
    if b == [] {
      assert a + b == a;
    } else {
      var b' := b[..|b|-1];
      RunConcat(c, a, b');
      assert (a + b)[..|a + b| - 1] == a + b';
      assert (a + b)[|a + b| - 1] == b[|b| - 1];
    }
  }

  lemma RunNothing(c: Conn)
    ensures Run(c, []) == c
  {
  }

  lemma RunOne(c: Conn, ch: Byte)
    ensures Run(c, [ch]) == Advance(c, ch)
  {
    assert [ch][..0] == [];
  }

  lemma RunSnoc(c: Conn, a: seq<Byte>, ch: Byte)
    ensures Run(c, a + [ch]) == Advance(Run(c, a), ch)
  {
    RunConcat(c, a, [ch]);
    RunOne(Run(c, a), ch);
  }

  lemma RunTwo(c: Conn, a: Byte, b: Byte)
    ensures Run(c, [a, b]) == Advance(Advance(c, a), b)
  {
    RunOne(c, a);
    RunSnoc(c, [a], b);
    assert [a, b] == [a] + [b];
  }

  lemma {:induction false} RunStopped(c: Conn, data: seq<Byte>)
    requires !c.stop.Go?
    ensures Run(c, data) == c
  {
    if data != [] {
      RunStopped(c, data[..|data|-1]);
    }
  }

  /** Successive reads. */
  function RunParts(c: Conn, parts: seq<seq<Byte>>): Conn {
    if parts == [] then c else Run(RunParts(c, parts[..|parts|-1]), parts[|parts|-1])
  }

  /** Read boundaries do not matter: fields, joined trace, errno and absolute offset depend on the stream alone. */
  lemma {:induction false} BoundariesDoNotMatter(c: Conn, parts: seq<seq<Byte>>)
    ensures RunParts(c, parts) == Run(c, Flatten(parts))
  {
    if parts != [] {
      BoundariesDoNotMatter(c, parts[..|parts|-1]);
      RunConcat(c, Flatten(parts[..|parts|-1]), parts[|parts|-1]);
    }
  }

  lemma EmitTwice(t: seq<Event>, a: Event, b: Event)
    requires SameData(a, b)
    ensures Emit(Emit(t, a), b) == Emit(t, a.(data := a.data + b.data))
  {
    if t != [] && SameData(t[|t|-1], a) {
      var last := t[|t|-1];
      var t' := t[..|t|-1] + [last.(data := last.data + a.data)];
      assert t'[..|t'|-1] == t[..|t|-1];
      assert (last.data + a.data) + b.data == last.data + (a.data + b.data);
    } else {
      assert (t + [a])[..|t|] == t;
    }
  }

  // ---------- counted bodies ----------

  lemma StepBodyOctet(p: Parser, ch: Byte)
    requires p.state.BodyIdentity? || p.state.ChunkData?
    ensures p.contentLength > 1 ==>
      Step(p, ch) == Out(p.(contentLength := p.contentLength - 1), One(OnBody([ch])), Go)
    ensures p.contentLength == 1 && p.state.ChunkData? ==>
      Step(p, ch) == Out(p.(contentLength := 0, state := ChunkDataAlmostDone), One(OnBody([ch])), Go)
    ensures p.contentLength == 1 && p.state.BodyIdentity? ==>
      var q := p.(contentLength := 0);
      Step(p, ch) == Out(q.(state := NewMessage(q)), Two(OnBody([ch]), OnMessageComplete), Go)
  {
  }

  /** The connection once b of its body has been read and more is to come. */
  function BodyRead(c: Conn, b: seq<Byte>): Conn
    requires |b| <= c.p.contentLength
  {
    Conn(c.p.(contentLength := c.p.contentLength - |b|), Emit(c.trace, OnBody(b)), Go, c.used + |b|)
  }

  lemma BodyFirst(c: Conn, ch: Byte)
    requires c.stop.Go? && (c.p.state.BodyIdentity? || c.p.state.ChunkData?) && 1 < c.p.contentLength
    ensures Advance(c, ch) == BodyRead(c, [ch])
  {
    hide Step, Emit;
    StepBodyOctet(c.p, ch);
  }

  lemma BodyNext(c: Conn, b: seq<Byte>, ch: Byte)
    requires c.stop.Go? && (c.p.state.BodyIdentity? || c.p.state.ChunkData?)
    requires 0 < |b| && |b| + 1 < c.p.contentLength
    ensures Advance(BodyRead(c, b), ch) == BodyRead(c, b + [ch])
  {
    hide Step, Emit;
    StepBodyOctet(BodyRead(c, b).p, ch);
    EmitTwice(c.trace, OnBody(b), OnBody([ch]));
  }

  /** Body octets short of the count are all delivered, in order, and counted down. */
  lemma {:induction false} RunBodyPart(c: Conn, b: seq<Byte>)
    requires c.stop.Go? && (c.p.state.BodyIdentity? || c.p.state.ChunkData?)
    requires 0 < |b| < c.p.contentLength
    ensures Run(c, b) == BodyRead(c, b)
  {
    hide Run, Advance, BodyRead;
    var b', ch := b[..|b|-1], b[|b|-1];
    assert b' + [ch] == b;
    RunSnoc(c, b', ch);
    if b' == [] {
      assert b == [ch];
      RunOne(c, ch);
      BodyFirst(c, ch);
    } else {
      RunBodyPart(c, b');
      BodyNext(c, b', ch);
    }
  }

  /** The connection once the whole body b has been read. */
  function BodyFinished(c: Conn, b: seq<Byte>): Conn {
    var q := c.p.(contentLength := 0);
    var t := Emit(c.trace, OnBody(b));
    if c.p.state.ChunkData? then Conn(q.(state := ChunkDataAlmostDone), t, Go, c.used + |b|)
    else Conn(q.(state := NewMessage(q)), Emit(t, OnMessageComplete), Go, c.used + |b|)
  }

  lemma BodyLast(c: Conn, b: seq<Byte>, ch: Byte)
    requires c.stop.Go? && (c.p.state.BodyIdentity? || c.p.state.ChunkData?) && |b| + 1 == c.p.contentLength
    ensures b == [] ==> Advance(c, ch) == BodyFinished(c, [ch])
    ensures b != [] ==> Advance(BodyRead(c, b), ch) == BodyFinished(c, b + [ch])
  {
    hide Step, Emit, NewMessage;
    StepBodyOctet(c.p, ch);
    StepBodyOctet(BodyRead(c, b).p, ch);
    EmitTwice(c.trace, OnBody(b), OnBody([ch]));
    assert BodyRead(c, b).p.(contentLength := 0) == c.p.(contentLength := 0);
  }

  /** A body is delivered whole, and a counted one completes its message. */
  lemma RunBody(c: Conn, b: seq<Byte>)
    requires c.stop.Go? && (c.p.state.BodyIdentity? || c.p.state.ChunkData?)
    requires 0 < |b| == c.p.contentLength
    ensures Run(c, b) == BodyFinished(c, b)
  {
    hide Run, Advance, BodyRead, BodyFinished;
    var b', ch := b[..|b|-1], b[|b|-1];
    assert b' + [ch] == b;
    RunSnoc(c, b', ch);
    BodyLast(c, b', ch);
    if b' == [] {
      assert b == [ch];
      RunOne(c, ch);
    } else {
      RunBodyPart(c, b');
    }
  }

  // ---------- chunked bodies ----------

  function HexDigit(d: nat): Byte
    requires d < 16
  {
    if d < 10 then '0' as int + d else 'a' as int + d - 10
  }

  /** What snprintf "%zx" writes for n. */
  function Hex(n: nat): (s: seq<Byte>)
    ensures |s| > 0
  {
    if n < 16 then [HexDigit(n)] else Hex(n / 16) + [HexDigit(n % 16)]
  }

  const CRLF: seq<Byte> := [CR, LF]

  function Chunk(x: seq<Byte>): seq<Byte> {
    Hex(|x|) + CRLF + x + CRLF
  }

  const LastChunk: seq<Byte> := ['0' as int] + CRLF + CRLF

  function Chunks(items: seq<seq<Byte>>): seq<Byte> {
    if items == [] then [] else Chunks(items[..|items|-1]) + Chunk(items[|items|-1])
  }

  lemma UnhexDigit(d: nat)
    requires d < 16
    ensures Unhex(HexDigit(d)) == d && HexDigit(d) != CR
  {
  }

  lemma HexLength(n: nat)
    requires n < 0x1_0000_0000_0000_0000
    ensures |Hex(n)| <= 16
  {
    Hex4(n); Hex4(n / 0x1_0000); Hex4(n / 0x1_0000_0000); Hex4(n / 0x1_0000_0000_0000);
  }

  lemma Hex4(n: nat)
    ensures |Hex(n)| <= 4 + if n < 0x1_0000 then 0 else |Hex(n / 0x1_0000)|
  {
    assert n / 16 / 16 / 16 / 16 == n / 0x1_0000;
    if n >= 16 { assert |Hex(n)| == |Hex(n / 16)| + 1;
      if n >= 256 { assert |Hex(n / 16)| == |Hex(n / 16 / 16)| + 1;
        if n >= 4096 { assert |Hex(n / 16 / 16)| == |Hex(n / 16 / 16 / 16)| + 1;
          if n >= 65536 { assert |Hex(n / 16 / 16 / 16)| == |Hex(n / 16 / 16 / 16 / 16)| + 1; } } } }
  }

  /** A chunk size as the parser takes it: digits of either case, zeros in front; an octet from 128 on is a digit 0
      to it. */
  predicate IsHexText(s: seq<Byte>) {
    |s| > 0 && forall i :: 0 <= i < |s| ==> Unhex(s[i]) >= 0
  }

  function HexValue(s: seq<Byte>): (n: nat)
    requires IsHexText(s)
  {
    if |s| == 1 then Unhex(s[0]) else 16 * HexValue(s[..|s|-1]) + Unhex(s[|s|-1])
  }

  lemma StepHexFirst(p: Parser, ch: Byte)
    requires p.state.ChunkSizeStart? && Unhex(ch) >= 0 && p.nread < MAX_HEADER_SIZE
    ensures Step(p, ch) == Out(p.(nread := p.nread + 1, state := ChunkSize, contentLength := Unhex(ch)), NoCall, Go)
  {
    hide Unhex;
  }

  lemma StepHexNext(p: Parser, ch: Byte)
    requires p.state.ChunkSize? && Unhex(ch) >= 0 && p.nread < MAX_HEADER_SIZE && ch != CR
    ensures p.contentLength * 16 + Unhex(ch) < ULLONG_MAX ==>
      Step(p, ch) == Out(p.(nread := p.nread + 1, contentLength := p.contentLength * 16 + Unhex(ch)), NoCall, Go)
    ensures Step(p, ch).stop.Go? ==>
      Step(p, ch).p.state.ChunkSize? && Step(p, ch).p.contentLength < ULLONG_MAX && Step(p, ch).p.nread == p.nread + 1
  {
    hide Unhex;
  }

  lemma {:induction false} RunHexText(c: Conn, s: seq<Byte>)
    requires c.stop.Go? && c.p.state.ChunkSizeStart? && IsHexText(s) && c.p.nread + |s| <= MAX_HEADER_SIZE
    ensures HexValue(s) < ULLONG_MAX ==>
      Run(c, s) == Conn(c.p.(nread := c.p.nread + |s|, state := ChunkSize, contentLength := HexValue(s)), c.trace, Go,
          c.used + |s|)
    ensures Run(c, s).stop.Go? ==>
      Run(c, s).p.state.ChunkSize? && Run(c, s).p.contentLength < ULLONG_MAX && Run(c, s).p.nread == c.p.nread + |s|
    decreases |s|
  {
    hide Step, Run, Unhex, HexValue, IsHexText;
    HexSnoc(s);
    var s', ch := s[..|s|-1], s[|s|-1];
    assert s' + [ch] == s;
    if s' == [] {
      assert s == [ch];
      RunOne(c, ch);
      StepHexFirst(c.p, ch);
    } else {
      RunHexText(c, s');
      RunSnoc(c, s', ch);
      if Run(c, s').stop.Go? { StepHexNext(Run(c, s').p, ch); }
    }
  }

  lemma HexSnoc(s: seq<Byte>)
    requires IsHexText(s)
    ensures s != [] && Unhex(s[|s|-1]) >= 0 && s[|s|-1] != CR && (|s| > 1 ==> IsHexText(s[..|s|-1]))
    ensures HexValue(s) == (if |s| > 1 then HexValue(s[..|s|-1]) * 16 else 0) + Unhex(s[|s|-1])
  {
    hide Unhex;
    assert Unhex(CR) == -1 by { NoDigit(); }
  }

  lemma NoDigit()
    ensures Unhex(CR) == -1
  {}

  /** A chunk size is accepted as the number it spells exactly when that is below 2^64-1. */
  lemma ChunkSizeExact(c: Conn, s: seq<Byte>)
    requires c.stop.Go? && c.p.state.ChunkSizeStart? && IsHexText(s) && c.p.nread + |s| <= MAX_HEADER_SIZE
    ensures (Run(c, s).stop.Go? && Run(c, s).p.contentLength == HexValue(s)) <==> HexValue(s) < ULLONG_MAX
  {
    hide Run, HexValue, IsHexText;
    RunHexText(c, s);
  }

  /** What the writer prints spells the number it was given. */
  lemma {:induction false} HexSpells(n: nat)
    ensures IsHexText(Hex(n)) && HexValue(Hex(n)) == n
    decreases n
  {
    UnhexDigit(n % 16);
    if n >= 16 {
      HexSpells(n / 16);
      assert Hex(n)[..|Hex(n)|-1] == Hex(n / 16);
    }
  }

  /** The size line reads back as the number it was written from. */
  lemma RunHex(c: Conn, n: nat)
    requires c.stop.Go? && c.p.state.ChunkSizeStart?
    requires n < ULLONG_MAX && c.p.nread + |Hex(n)| <= MAX_HEADER_SIZE
    ensures Run(c, Hex(n)) ==
      Conn(c.p.(nread := c.p.nread + |Hex(n)|, state := ChunkSize, contentLength := n), c.trace, Go, c.used + |Hex(n)|)
  {
    hide Run;
    HexSpells(n);
    RunHexText(c, Hex(n));
  }

  /** Within the line of a chunk size, behind its first digit. */
  predicate InSize(s: State) {
    s.ChunkSize? || s.ChunkParameters?
  }

  /** The two octets after a chunk size: on to the data, or to the trailer. */
  lemma RunSizeEnd(c: Conn)
    requires c.stop.Go? && InSize(c.p.state) && c.p.nread + 2 <= MAX_HEADER_SIZE
    ensures Run(c, CRLF) == Conn(
      if c.p.contentLength == 0
      then c.p.(nread := 0, flags := c.p.flags.(trailing := true), state := HeaderFieldStart)
      else c.p.(nread := 0, state := ChunkData), c.trace, Go, c.used + 2)
  {
    hide Run, Step;
    RunTwo(c, CR, LF);
    StepSizeEnd(c.p);
  }

  lemma StepSizeEnd(p: Parser)
    requires InSize(p.state) && p.nread + 2 <= MAX_HEADER_SIZE
    ensures Step(p, CR) == Out(p.(nread := p.nread + 1, state := ChunkSizeAlmostDone), NoCall, Go)
    ensures Step(Step(p, CR).p, LF) == Out(
      if p.contentLength == 0 then p.(nread := 0, flags := p.flags.(trailing := true), state := HeaderFieldStart)
      else p.(nread := 0, state := ChunkData), NoCall, Go)
  {
    hide StepStart, StepUrl, StepVersion, StepField, StepValueStart, StepValue, StepLineEnd, StepHeadersEnd;
  }

  lemma RunDataEnd(c: Conn)
    requires c.stop.Go? && c.p.state.ChunkDataAlmostDone?
    ensures Run(c, CRLF) == Conn(c.p.(nread := 0, state := ChunkSizeStart), c.trace, Go, c.used + 2)
  {
    hide Run, StepStart, StepUrl, StepVersion, StepField, StepValueStart, StepValue, StepLineEnd, StepHeadersEnd;
    RunTwo(c, CR, LF);
  }

  lemma RunTrailerEnd(c: Conn)
    requires c.stop.Go? && (c.p.state.HeaderFieldStart? || c.p.state.HeaderValueLws?)
    requires c.p.flags.trailing && c.p.nread + 2 <= MAX_HEADER_SIZE
    ensures var q := c.p.(nread := c.p.nread + 2);
      Run(c, CRLF) == Conn(q.(state := NewMessage(q)), Emit(c.trace, OnMessageComplete), Go, c.used + 2)
  {
    hide Run, Step, Emit;
    RunTwo(c, CR, LF);
    StepTrailerEnd(c.p);
  }

  lemma StepTrailerEnd(p: Parser)
    requires (p.state.HeaderFieldStart? || p.state.HeaderValueLws?) && p.flags.trailing
    requires p.nread + 2 <= MAX_HEADER_SIZE
    ensures var q := p.(nread := p.nread + 2);
      && Step(p, CR) == Out(p.(nread := p.nread + 1, state := HeadersAlmostDone), NoCall, Go)
      && Step(Step(p, CR).p, LF) == Out(q.(state := NewMessage(q)), One(OnMessageComplete), Go)
  {
    hide StepStart, StepUrl, StepVersion, StepChunk, FieldChar, FieldStart, StepValueStart, StepValue, StepLineEnd,
         StepHeadersDone, StepBody;
  }

  /** What may follow a chunk size on its line: a semicolon or a space, then anything but a carriage return. */
  predicate IsExtension(ext: seq<Byte>) {
    ext == [] || ((ext[0] == ';' as int || ext[0] == SP) && forall i :: 0 <= i < |ext| ==> ext[i] != CR)
  }

  lemma StepExtension(p: Parser, ch: Byte)
    requires InSize(p.state) && p.nread < MAX_HEADER_SIZE && ch != CR
    requires p.state.ChunkSize? ==> ch == ';' as int || ch == SP
    ensures Step(p, ch) == Out(p.(nread := p.nread + 1, state := ChunkParameters), NoCall, Go)
  {
    hide StepStart, StepUrl, StepVersion, StepField, StepValueStart, StepValue, StepLineEnd, StepHeadersEnd;
  }

  lemma {:induction false} RunExtension(c: Conn, ext: seq<Byte>)
    requires c.stop.Go? && c.p.state.ChunkSize? && IsExtension(ext) && c.p.nread + |ext| <= MAX_HEADER_SIZE
    ensures Run(c, ext) == if ext == [] then c else
      Conn(c.p.(nread := c.p.nread + |ext|, state := ChunkParameters), c.trace, Go, c.used + |ext|)
    decreases |ext|
  {
    hide Step, Run, IsExtension;
    RunNothing(c);
    if ext != [] {
      var front, ch := ext[..|ext| - 1], ext[|ext| - 1];
      assert front + [ch] == ext;
      ExtensionSnoc(ext);
      RunExtension(c, front);
      RunSnoc(c, front, ch);
      StepExtension(Run(c, front).p, ch);
    }
  }

  lemma ExtensionSnoc(ext: seq<Byte>)
    requires ext != [] && IsExtension(ext)
    ensures var front, ch := ext[..|ext| - 1], ext[|ext| - 1];
      IsExtension(front) && ch != CR && (front == [] ==> ch == ';' as int || ch == SP)
  {}

  /** The line of a chunk size. */
  lemma RunSizeLine(c: Conn, size: seq<Byte>, ext: seq<Byte>)
    requires c.stop.Go? && c.p.state.ChunkSizeStart? && c.p.nread + |size| + |ext| + 2 <= MAX_HEADER_SIZE
    requires IsHexText(size) && HexValue(size) < ULLONG_MAX && IsExtension(ext)
    ensures Run(c, size + ext + CRLF) == Conn(
      if HexValue(size) == 0
      then c.p.(nread := 0, contentLength := 0, flags := c.p.flags.(trailing := true), state := HeaderFieldStart)
      else c.p.(nread := 0, contentLength := HexValue(size), state := ChunkData),
      c.trace, Go, c.used + |size| + |ext| + 2)
  {
    hide Run, HexValue, IsHexText, IsExtension;
    RunHexText(c, size);
    RunConcat(c, size, ext);
    RunExtension(Run(c, size), ext);
    RunConcat(c, size + ext, CRLF);
    RunSizeEnd(Run(c, size + ext));
  }

  /** One chunk, its size and what follows that as its sender writes them. */
  datatype ChunkText = ChunkText(size: seq<Byte>, ext: seq<Byte>, data: seq<Byte>)

  predicate IsChunk(k: ChunkText) {
    && IsHexText(k.size) && HexValue(k.size) == |k.data| && 0 < |k.data| < ULLONG_MAX
    && IsExtension(k.ext) && |k.size| + |k.ext| + 2 <= MAX_HEADER_SIZE
  }

  function ChunkWire(k: ChunkText): seq<Byte> {
    k.size + k.ext + CRLF + k.data + CRLF
  }

  /** Any chunk is delivered, and the parser is back at a size. */
  lemma RunAnyChunk(c: Conn, k: ChunkText)
    requires c.stop.Go? && c.p.state.ChunkSizeStart? && c.p.nread == 0 && IsChunk(k)
    ensures Run(c, ChunkWire(k)) ==
      Conn(c.p.(contentLength := 0), Emit(c.trace, OnBody(k.data)), Go, c.used + |ChunkWire(k)|)
  {
    hide Run, Emit, IsHexText, HexValue, IsExtension;
    RunSizeLine(c, k.size, k.ext);
    var c2 := Run(c, k.size + k.ext + CRLF);
    RunConcat(c, k.size + k.ext + CRLF, k.data);
    RunBody(c2, k.data);
    RunConcat(c, k.size + k.ext + CRLF + k.data, CRLF);
    RunDataEnd(Run(c2, k.data));
  }

  /** One chunk written by the response code, read by the request parser. */
  lemma RunChunk(c: Conn, x: seq<Byte>)
    requires c.stop.Go? && c.p.state.ChunkSizeStart? && c.p.nread == 0
    requires 0 < |x| < ULLONG_MAX
    ensures Run(c, Chunk(x)) ==
      Conn(c.p.(contentLength := 0), Emit(c.trace, OnBody(x)), Go, c.used + |Chunk(x)|)
  {
    hide Run, Emit, Hex, IsHexText, HexValue;
    HexLength(|x|);
    HexSpells(|x|);
    RunAnyChunk(c, ChunkText(Hex(|x|), [], x));
    assert Hex(|x|) + [] == Hex(|x|);
  }

  function EmitBodies(t: seq<Event>, items: seq<seq<Byte>>): seq<Event> {
    if items == [] then t else Emit(EmitBodies(t, items[..|items|-1]), OnBody(items[|items|-1]))
  }

  lemma {:induction false} BodiesAreOne(t: seq<Event>, items: seq<seq<Byte>>)
    requires items != []
    ensures EmitBodies(t, items) == Emit(t, OnBody(Flatten(items)))
  {
    var items', x := items[..|items|-1], items[|items|-1];
    if items' == [] {
      assert items == [x];
      assert Flatten(items) == [] + x == x;
      assert EmitBodies(t, items) == Emit(EmitBodies(t, items'), OnBody(x));
    } else {
      BodiesAreOne(t, items');
      EmitTwice(t, OnBody(Flatten(items')), OnBody(x));
    }
  }

  lemma {:induction false} RunChunks(c: Conn, items: seq<seq<Byte>>)
    requires c.stop.Go? && c.p.state.ChunkSizeStart? && c.p.nread == 0
    requires forall i :: 0 <= i < |items| ==> 0 < |items[i]| < ULLONG_MAX
    ensures Run(c, Chunks(items)) == Conn(if items == [] then c.p else c.p.(contentLength := 0),
      EmitBodies(c.trace, items), Go, c.used + |Chunks(items)|)
  {
    hide Chunk, Emit;
    if items != [] {
      var items', x := items[..|items|-1], items[|items|-1];
      RunChunks(c, items');
      RunConcat(c, Chunks(items'), Chunk(x));
      RunChunk(Run(c, Chunks(items')), x);
    }
  }

  lemma RunLastChunk(c: Conn)
    requires c.stop.Go? && c.p.state.ChunkSizeStart? && c.p.nread == 0
    ensures var q := c.p.(contentLength := 0, nread := 2, flags := c.p.flags.(trailing := true));
      Run(c, LastChunk) == Conn(q.(state := NewMessage(q)), Emit(c.trace, OnMessageComplete), Go, c.used + 5)
  {
    hide Step, Run, Emit, CRLF;
    var z: seq<Byte> := ['0' as int];
    assert Hex(0) == z;
    HexSpells(0);
    RunSizeLine(c, z, []);
    assert z + [] == z;
    RunConcat(c, z + CRLF, CRLF);
    var c2 := Run(c, z + CRLF);
    RunTrailerEnd(c2);
    assert c2 == Conn(c.p.(contentLength := 0, nread := 0, flags := c.p.flags.(trailing := true),
        state := HeaderFieldStart),
                      c.trace, Go, c.used + 3);
  }

  /** Chunk encoder and decoder undo each other.  Whatever non-empty items the application yields and however
      the bytes are cut into reads, the parser delivers exactly their concatenation, then completes once. */
  lemma ChunkedRoundTrip(c: Conn, items: seq<seq<Byte>>, parts: seq<seq<Byte>>)
    requires c.stop.Go? && c.p.state.ChunkSizeStart? && c.p.nread == 0
    requires forall i :: 0 <= i < |items| ==> 0 < |items[i]| < ULLONG_MAX
    requires Flatten(parts) == Chunks(items) + LastChunk
    ensures var r := RunParts(c, parts);
      && r.stop.Go? && (r.p.state.StartReq? || r.p.state.Dead?)
      && (r.p.state.StartReq? <==> ShouldKeepAlive(c.p))
      && r.used == c.used + |Flatten(parts)|
      && r.trace == Emit(if items == [] then c.trace else Emit(c.trace, OnBody(Flatten(items))), OnMessageComplete)
  {
    hide Run, Emit, LastChunk;
    BoundariesDoNotMatter(c, parts);
    RunConcat(c, Chunks(items), LastChunk);
    RunChunks(c, items);
    RunLastChunk(Run(c, Chunks(items)));
    LastChunkLength();
    if items != [] {
      BodiesAreOne(c.trace, items);
    }
  }

  lemma LastChunkLength()
    ensures |LastChunk| == 5
  {
  }

  // ---------- empty items ----------

  /** An empty item is written as the last chunk. */
  lemma EmptyChunkIsLast()
    ensures Chunk([]) == LastChunk
  {
    assert Hex(0) == ['0' as int];
    assert Hex(0) + CRLF + [] == Hex(0) + CRLF;
  }

  lemma {:induction false} ChunksConcat(a: seq<seq<Byte>>, b: seq<seq<Byte>>)
    ensures Chunks(a + b) == Chunks(a) + Chunks(b)
  {
    hide Chunk;
    if b == [] {
      assert a + b == a;
    } else {
      ChunksConcat(a, b[..|b|-1]);
      assert (a + b)[..|a + b| - 1] == a + b[..|b|-1];
    }
  }

  predicate IsHexDigit(ch: Byte) {
    '0' as int <= ch <= '9' as int || 'a' as int <= ch <= 'f' as int
  }

  lemma {:induction false} HexFirst(n: nat)
    ensures IsHexDigit(Hex(n)[0])
    decreases n
  {
    if n >= 16 { HexFirst(n / 16); }
  }

  lemma ChunkFirst(x: seq<Byte>)
    ensures Chunk(x) != [] && IsHexDigit(Chunk(x)[0])
  {
    hide Hex;
    HexFirst(|x|);
  }

  /** Between messages a hexadecimal digit is no method. */
  lemma DigitIsNoMethod(p: Parser, ch: Byte)
    requires (p.state.StartReq? || p.state.Dead?) && IsHexDigit(ch)
    ensures Step(p, ch).stop.Failed?
  {
    hide StepUrl, StepVersion, StepChunk, StepField, StepValueStart, StepValue, StepLineEnd, StepHeadersEnd, StepBody;
  }

  /** The round trip holds exactly when no item is empty: after an empty one the rest of the body is taken for
      another message, which its first octet cannot begin. */
  lemma ChunkedExactly(c: Conn, items: seq<seq<Byte>>)
    requires c.stop.Go? && c.p.state.ChunkSizeStart? && c.p.nread == 0
    requires forall i :: 0 <= i < |items| ==> |items[i]| < ULLONG_MAX
    ensures Run(c, Chunks(items) + LastChunk).stop.Go? <==> forall i :: 0 <= i < |items| ==> items[i] != []
  {
    hide Run, Emit, LastChunk, Chunk, Step;
    if forall i :: 0 <= i < |items| ==> items[i] != [] {
      RunChunks(c, items);
      RunConcat(c, Chunks(items), LastChunk);
      RunLastChunk(Run(c, Chunks(items)));
    } else {
      var i := FirstEmpty(items, 0);
      SplitAtEmpty(items, i);
      RunChunks(c, items[..i]);
      var c1 := Run(c, Chunks(items[..i]));
      RunLastChunk(c1);
      RunConcat(c, Chunks(items[..i]), LastChunk);
      RunConcat(c, Chunks(items[..i]) + LastChunk, Chunks(items[i + 1..]) + LastChunk);
      NothingFollows(Run(c1, LastChunk), items[i + 1..]);
    }
  }

  lemma SplitAtEmpty(items: seq<seq<Byte>>, i: nat)
    requires i < |items| && items[i] == []
    ensures Chunks(items) + LastChunk == (Chunks(items[..i]) + LastChunk) + (Chunks(items[i + 1..]) + LastChunk)
  {
    hide Chunks, LastChunk, Chunk;
    var gap: seq<seq<Byte>> := [[]];
    assert items == items[..i] + (gap + items[i + 1..]);
    ChunksConcat(gap, items[i + 1..]);
    ChunksConcat(items[..i], gap + items[i + 1..]);
    GapIsLast(gap);
    Regroup(Chunks(items[..i]), LastChunk, Chunks(items[i + 1..]), LastChunk);
  }

  lemma GapIsLast(gap: seq<seq<Byte>>)
    requires gap == [[]]
    ensures Chunks(gap) == LastChunk
  {
    hide Chunk, LastChunk;
    EmptyChunkIsLast();
    assert gap[..0] == [] && Chunks(gap) == [] + Chunk([]);
  }

  lemma Regroup(a: seq<Byte>, b: seq<Byte>, c: seq<Byte>, d: seq<Byte>)
    ensures (a + (b + c)) + d == (a + b) + (c + d)
  {
  }

  lemma NothingFollows(c: Conn, after: seq<seq<Byte>>)
    requires c.stop.Go? && (c.p.state.StartReq? || c.p.state.Dead?)
    ensures !Run(c, Chunks(after) + LastChunk).stop.Go?
  {
    hide Run, LastChunk, Step, Chunks;
    var rest := Chunks(after) + LastChunk;
    RestFirst(after);
    DigitIsNoMethod(c.p, rest[0]);
    RunOne(c, rest[0]);
    RunConcat(c, [rest[0]], rest[1..]);
    RunStopped(Run(c, [rest[0]]), rest[1..]);
    assert [rest[0]] + rest[1..] == rest;
  }

  lemma FirstEmpty(items: seq<seq<Byte>>, from: nat) returns (i: nat)
    requires from <= |items| && forall k :: 0 <= k < from ==> items[k] != []
    requires exists k :: 0 <= k < |items| && items[k] == []
    ensures i < |items| && items[i] == [] && forall k :: 0 <= k < i ==> items[k] != []
    decreases |items| - from
  {
    if items[from] == [] { i := from; } else { i := FirstEmpty(items, from + 1); }
  }

  lemma RestFirst(after: seq<seq<Byte>>)
    ensures var rest := Chunks(after) + LastChunk; rest != [] && IsHexDigit(rest[0])
  {
    hide Chunk;
    EmptyChunkIsLast();
    ChunkFirst([]);
    if after != [] {
      ChunksConcat([after[0]], after[1..]);
      assert [after[0]] + after[1..] == after;
      var one := [after[0]];
      assert one[..0] == [] && Chunks(one) == [] + Chunk(after[0]);
      ChunkFirst(after[0]);
    }
  }
}
