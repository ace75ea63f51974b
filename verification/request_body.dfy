/** A request's body on its way from the parser's callbacks to wsgi.input. */
module RequestBody {
  import opened Bytes
  import opened Pieces

  const LIMIT_MAX: nat := 1024 * 1024 * 1024

  datatype BufferResult = WRITE_OK | MEMORY_ERROR | LIMIT_OVER

  /** A number cast to int and stored as a size. */
  function SizeFromInt(x: nat): (r: nat)
    ensures x < 0x8000_0000 ==> r == x
    ensures 0x8000_0000 <= x < 0x1_0000_0000 ==> r > x
  {
    var low := x % 0x1_0000_0000;
    if low < 0x8000_0000 then low else low + 0xffff_ffff_0000_0000
  }

  /** What a buffer keeps of everything written to it. */
  function Kept(written: seq<Byte>, limit: nat): seq<Byte> {
    if |written| <= limit then written else written[..limit]
  }

  lemma KeptMore(written: seq<Byte>, c: seq<Byte>, limit: nat)
    ensures Kept(written + c, limit) == Kept(Kept(written, limit) + c, limit)
    ensures |written + c| > limit && |c| > 0 <==> |Kept(written, limit)| + |c| > limit && |c| > 0
  {
    if |written| > limit {
      assert (written + c)[..limit] == written[..limit];
      assert (written[..limit] + c)[..limit] == written[..limit];
    }
  }

  class Buffer {
    var buf: array<Byte>
    var bufSize: nat
    var len: nat
    const limit: nat
    /** Everything written since the buffer was made, or since memory last ran out. */
    ghost var written: seq<Byte>

    ghost predicate Valid()
      reads this, buf
    {
      && buf.Length == bufSize && (len == 0 || len < bufSize) && len <= bufSize <= limit + 1
      && buf[..len] == Kept(written, limit)
    }

    /** new_buffer; a limit of 0 means LIMIT_MAX. */
    constructor (bufSize: nat, limit: nat)
      requires bufSize <= (if limit > 0 then limit else LIMIT_MAX) + 1
      ensures Valid() && written == [] && fresh(buf)
      ensures this.bufSize == bufSize && len == 0 && this.limit == if limit > 0 then limit else 0x4000_0000
    {
      buf := new Byte[bufSize](_ => 0);
      this.bufSize, len, written := bufSize, 0, [];
      this.limit := if limit > 0 then limit else LIMIT_MAX;
    }

    /** The first half of write2buf: room for newl octets and one more, as far as the limit allows. */
    method Grow(newl: nat, alloc: bool) returns (ok: bool)
      requires Valid() && len <= newl && newl + 1 < 0x1_0000_0000
      modifies this`buf, this`bufSize, this`len, this`written
      ensures Valid() && (buf == old(buf) || fresh(buf))
      ensures ok <==> alloc || newl < old(bufSize)
      ensures ok ==> len == old(len) && written == old(written) && buf[..len] == old(buf[..len]) && len < bufSize
      ensures ok ==> newl < bufSize || bufSize == limit + 1
      ensures !ok ==> len == 0 && written == []
    {
      ok := true;
      if newl >= bufSize {
        bufSize := bufSize * 2;
        if bufSize <= newl { bufSize := SizeFromInt(newl + 1); }
        if bufSize > limit { bufSize := limit + 1; }
        ghost var held := buf[..len];
        if !alloc {
          buf, bufSize, len, written := new Byte[0], 0, 0, [];
          return false;
        }
        var newbuf := new Byte[bufSize](_ => 0);
        forall i | 0 <= i < len { newbuf[i] := buf[i]; }
        buf := newbuf;
        assert buf[..len] == held;
      }
    }

    /** write2buf: alloc is whether memory lasts. */
    method Write(c: seq<Byte>, alloc: bool) returns (ret: BufferResult)
      requires Valid() && len + |c| + 1 < 0x1_0000_0000
      modifies this, buf
      ensures Valid() && (buf == old(buf) || fresh(buf))
      ensures ret == MEMORY_ERROR <==> !alloc && old(len) + |c| >= old(bufSize)
      ensures ret == MEMORY_ERROR ==> written == [] && len == 0
      ensures ret != MEMORY_ERROR ==> written == old(written) + c && len < bufSize
      ensures ret != MEMORY_ERROR ==> (ret == LIMIT_OVER <==> |written| > limit && |c| > 0)
    {
      KeptMore(written, c, limit);
      var l := |c|;
      var newl := len + l;
      var ok := Grow(newl, alloc);
      if !ok { return MEMORY_ERROR; }
      ret := WRITE_OK;
      ghost var held := buf[..len];
      if newl >= bufSize {
        l := bufSize - len - 1;
        ret := LIMIT_OVER;
      }
      Copy(c, l);
      assert held + c[..l] == Kept(held + c, limit);
    }

    /** The memcpy of write2buf. */
    method Copy(c: seq<Byte>, l: nat)
      requires buf.Length == bufSize && l <= |c| && len + l < bufSize <= limit + 1
      modifies this`len, this`written, buf
      ensures len == old(len) + l && written == old(written) + c
      ensures buf[..len] == old(buf[..len]) + c[..l]
    {
      forall i | 0 <= i < l { buf[len + i] := c[i]; }
      len := len + l;
      written := written + c;
      assert buf[..len] == old(buf[..len]) + c[..l];
    }
  }

  datatype BodyType = BODY_TYPE_NONE | BODY_TYPE_TMPFILE | BODY_TYPE_BUFFER

  /** The part of a request that body_cb works on. */
  class Request {
    const maxContentLength: nat
    const clientBodyBufferSize: nat
    /** body_length, and F_CHUNKED among the flags of the parser. */
    var bodyLength: nat
    var chunked: bool
    var bodyType: BodyType
    var bodyRead: nat
    var badRequestCode: nat
    var body: Buffer?
    var tmp: seq<Byte>
    /** Octets dropped because memory ran out. */
    ghost var lost: nat

    ghost predicate Valid()
      reads this, body, if body != null then {body.buf} else {}
    {
      && clientBodyBufferSize <= LIMIT_MAX && maxContentLength < 0x8000_0000
      && (bodyType == BODY_TYPE_BUFFER <==> body != null)
      && (body != null ==> body.Valid() && body.limit == LIMIT_MAX && |body.written| + lost == bodyRead)
      && (bodyType == BODY_TYPE_TMPFILE ==> |tmp| == bodyRead && lost == 0)
      && (bodyType == BODY_TYPE_NONE ==> bodyRead == 0 && lost == 0)
      && (bodyRead > 0 ==> bodyRead <= maxContentLength)
    }

    /** Every octet body_cb was handed. */
    ghost function Received(): seq<Byte>
      reads this, body
    {
      match bodyType
      case BODY_TYPE_NONE => []
      case BODY_TYPE_TMPFILE => tmp
      case BODY_TYPE_BUFFER => if body != null then body.written else []
    }

    /** The octets that more memory would be needed for: room for one fewer is left in the buffer. */
    ghost function Room(): int
      reads this, body
    {
      if body != null then body.bufSize - body.len else bodyLength
    }

    /** A new request. */
    constructor (maxContentLength: nat, clientBodyBufferSize: nat)
      requires clientBodyBufferSize <= LIMIT_MAX && maxContentLength < 0x8000_0000
      ensures Valid() && Received() == [] && bodyType == BODY_TYPE_NONE && badRequestCode == 0
      ensures this.maxContentLength == maxContentLength && this.clientBodyBufferSize == clientBodyBufferSize
      ensures bodyLength == 0 && !chunked
    {
      this.maxContentLength, this.clientBodyBufferSize := maxContentLength, clientBodyBufferSize;
      bodyLength, chunked := 0, false;
      bodyType, bodyRead, badRequestCode, body, tmp, lost := BODY_TYPE_NONE, 0, 0, null, [], 0;
    }

    /** headers_complete_cb, as far as the body goes: the length announced, if any, is refused past the maximum. */
    method HeadersCompleteCb(contentLength: nat, chunked: bool) returns (ret: int)
      requires Valid() && bodyType == BODY_TYPE_NONE
      modifies this`bodyLength, this`chunked, this`badRequestCode
      ensures Valid() && Received() == [] && this.chunked == chunked
      ensures ret == 0 <==> Announced(contentLength) <= maxContentLength
      ensures ret == 0 ==> bodyLength == Announced(contentLength) && badRequestCode == old(badRequestCode)
      ensures ret != 0 ==> ret == -1 && badRequestCode == 413 && bodyLength == old(bodyLength)
    {
      this.chunked := chunked;
      var length := 0;
      if contentLength != ULLONG_MAX {
        length := contentLength;
        if maxContentLength < length {
          badRequestCode := 413;
          return -1;
        }
      }
      bodyLength := length;
      ret := 0;
    }

    /** body_cb; alloc is whether memory lasts.  It refuses with 413 past the maximum and with 411 when nothing
        announced a body; else the octets are added to what came before, in memory or in a file.  When the buffer
        has to grow and memory has run out it answers 0 all the same, and every octet so far is lost. */
    method BodyCb(data: seq<Byte>, alloc: bool) returns (ret: int)
      requires Valid()
      modifies this`bodyType, this`bodyRead, this`badRequestCode, this`body, this`tmp, this`lost,
               body, if body != null then {body.buf} else {}
      ensures Valid() && (body == old(body) || fresh(body))
      ensures body != null ==> fresh(body.buf) || (old(body) != null && body.buf == old(body.buf))
      ensures ret == 0 <==>
        old(bodyRead) + |data| <= maxContentLength && (old(bodyType) != BODY_TYPE_NONE || bodyLength > 0 || chunked)
      ensures ret == 0 ==> bodyType == if old(bodyType) != BODY_TYPE_NONE then old(bodyType) else Kind()
      ensures ret == 0 ==>
        if bodyType == BODY_TYPE_BUFFER && !alloc && |data| >= old(Room())
        then Received() == [] && lost == old(bodyRead) + |data|
        else Received() == old(Received()) + data && lost == old(lost)
      ensures ret != 0 ==> Received() == old(Received()) && lost == old(lost)
      ensures ret != 0 ==> badRequestCode == if old(bodyRead) + |data| > maxContentLength then 413 else 411
    {
      if maxContentLength < bodyRead + |data| {
        badRequestCode := 413;
        return -1;
      }
      if bodyType == BODY_TYPE_NONE {
        if bodyLength == 0 && !chunked {
          badRequestCode := 411;
          return -1;
        }
        if bodyLength > clientBodyBufferSize {
          tmp, bodyType := [], BODY_TYPE_TMPFILE;
        } else {
          body := new Buffer(bodyLength, 0);
          bodyType := BODY_TYPE_BUFFER;
        }
      }
      if bodyType == BODY_TYPE_TMPFILE {
        tmp := tmp + data;
      } else {
        var r := body.Write(data, alloc);
        if r == MEMORY_ERROR { lost := bodyRead + |data|; }
      }
      bodyRead := bodyRead + |data|;
      ret := 0;
    }

    /** Where a body of the announced length goes. */
    function Kind(): BodyType
      reads this`bodyLength
    {
      if bodyLength > clientBodyBufferSize then BODY_TYPE_TMPFILE else BODY_TYPE_BUFFER
    }
  }

  // ---- wsgi.input ----

  /** The length of the first line of s, its newline included. */
  function LineLength(s: seq<Byte>): (n: nat)
    ensures n <= |s| && (n == 0 <==> s == [])
    ensures forall i :: 0 <= i < n - 1 ==> s[i] != LF
    ensures n < |s| ==> s[n - 1] == LF
  {
    if s == [] then 0
    else if s[0] == LF then 1
    else 1 + LineLength(s[1..])
  }

  /** A call on wsgi.input; a negative size asks for everything. */
  datatype Op = Read(size: int) | ReadLine(limit: int) | ReadLines(hint: int)

  /** The lines readlines returns with that many octets read before them. */
  function Lines(rest: seq<Byte>, hint: int, before: nat): seq<seq<Byte>>
    decreases |rest|
  {
    if rest == [] then []
    else
      var n := LineLength(rest);
      [rest[..n]] + if hint > 0 && before + n >= hint then [] else Lines(rest[n..], hint, before + n)
  }

  function TakenBy(op: Op, rest: seq<Byte>): seq<seq<Byte>> {
    match op
    case Read(n) => [if n < 0 || n > |rest| then rest else rest[..n]]
    case ReadLine(limit) =>
      var n := LineLength(rest);
      [rest[..if 0 <= limit < n then limit else n]]
    case ReadLines(hint) => Lines(rest, hint, 0)
  }

  /** The lines after the first one. */
  function MoreLines(rest: seq<Byte>, hint: int, before: nat): seq<seq<Byte>>
    requires rest != []
  {
    var n := LineLength(rest);
    if hint > 0 && before + n >= hint then [] else Lines(rest[n..], hint, before + n)
  }

  lemma LinesOpen(rest: seq<Byte>, hint: int, before: nat)
    ensures if rest == [] then Lines(rest, hint, before) == []
      else Lines(rest, hint, before) == [rest[..LineLength(rest)]] + MoreLines(rest, hint, before)
  {}

  lemma MoreOpen(rest: seq<Byte>, hint: int, before: nat)
    requires rest != []
    ensures var n := LineLength(rest);
      MoreLines(rest, hint, before) == if hint > 0 && before + n >= hint then [] else Lines(rest[n..], hint, before + n)
  {}

  /** The lines are consecutive pieces from the front; they stop at the end of the body or once hint
      octets are read. */
  lemma {:induction false} LinesArePieces(rest: seq<Byte>, hint: int, before: nat)
    ensures var all := Flatten(Lines(rest, hint, before));
      all <= rest && (|all| < |rest| ==> hint > 0 && before + |all| >= hint)
    decreases |rest|
  {
    hide Lines, Flatten;
    LinesOpen(rest, hint, before);
    if rest == [] {
      NothingAfter([]);
    } else {
      var n, ls := LineLength(rest), Lines(rest, hint, before);
      FlattenHead(ls);
      assert ls[0] == rest[..n] && ls[1..] == MoreLines(rest, hint, before);
      assert rest == rest[..n] + rest[n..];
      if hint > 0 && before + n >= hint { NothingAfter([]); } else { LinesArePieces(rest[n..], hint, before + n); }
    }
  }

  /** Each line ends at its only newline, but for the last one of a body without it. */
  lemma {:induction false} LinesAreLines(rest: seq<Byte>, hint: int, before: nat)
    ensures forall l :: l in Lines(rest, hint, before) ==> |l| > 0 && forall j :: 0 <= j < |l| - 1 ==> l[j] != LF
    ensures var ls := Lines(rest, hint, before);
      forall i :: 0 <= i < |ls| - 1 ==> |ls[i]| > 0 && ls[i][|ls[i]| - 1] == LF
    decreases |rest|
  {
    hide Lines;
    LinesOpen(rest, hint, before);
    if rest != [] {
      var n, ls, tail := LineLength(rest), Lines(rest, hint, before), MoreLines(rest, hint, before);
      if !(hint > 0 && before + n >= hint) {
        LinesAreLines(rest[n..], hint, before + n);
        assert tail == Lines(rest[n..], hint, before + n);
      }
      forall i | 0 <= i < |ls| - 1 ensures |ls[i]| > 0 && ls[i][|ls[i]| - 1] == LF {
        if i == 0 {
          LinesOpen(rest[n..], hint, before + n);
          assert n < |rest| && ls[0] == rest[..n] && rest[n - 1] == LF;
          assert ls[0][n - 1] == rest[n - 1];
        } else {
          assert 0 <= i - 1 < |tail| - 1;
          assert ls[i] == tail[i - 1] && |tail[i - 1]| > 0 && tail[i - 1][|tail[i - 1]| - 1] == LF;
        }
      }
    }
  }

  /** They do not stop before hint octets are read. */
  lemma {:induction false} LinesGoOn(rest: seq<Byte>, hint: int, before: nat, i: nat)
    requires hint > 0 && 0 < i < |Lines(rest, hint, before)|
    ensures before + |Flatten(Lines(rest, hint, before)[..i])| < hint
    decreases |rest|
  {
    hide Lines, Flatten, LineLength;
    var n, ls := LineLength(rest), Lines(rest, hint, before);
    LinesOpen(rest, hint, before);
    FlattenHead(ls[..i]);
    NothingAfter([]);
    assert ls[..i][0] == rest[..n] && ls[1..] == MoreLines(rest, hint, before);
    assert ls[..i][1..] == ls[1..][..i - 1];
    if i > 1 { LinesGoOn(rest[n..], hint, before + n, i - 1); }
  }

  lemma TakenIsPrefix(op: Op, rest: seq<Byte>)
    ensures Flatten(TakenBy(op, rest)) <= rest
    ensures op == Read(-1) ==> Flatten(TakenBy(op, rest)) == rest
  {
    match op {
      case ReadLines(hint) => LinesArePieces(rest, hint, 0);
      case _ =>
        FlattenOne(TakenBy(op, rest)[0]);
    }
  }

  /** What a sequence of calls returns, call after call, and what is left. */
  function TakenByAll(ops: seq<Op>, rest: seq<Byte>): (r: (seq<seq<seq<Byte>>>, seq<Byte>)) {
    if ops == [] then ([], rest)
    else
      var out := TakenBy(ops[0], rest);
      TakenIsPrefix(ops[0], rest);
      var r := TakenByAll(ops[1..], rest[|Flatten(out)|..]);
      ([out] + r.0, r.1)
  }

  function FlattenAll(outs: seq<seq<seq<Byte>>>): seq<Byte> {
    if outs == [] then [] else Flatten(outs[0]) + FlattenAll(outs[1..])
  }

  /** Any calls return consecutive pieces of the body. */
  lemma {:induction false} ReadsAreTheBody(ops: seq<Op>, rest: seq<Byte>)
    ensures FlattenAll(TakenByAll(ops, rest).0) + TakenByAll(ops, rest).1 == rest
    decreases |ops|
  {
    hide TakenBy, Flatten;
    if ops != [] {
      var out := TakenBy(ops[0], rest);
      TakenIsPrefix(ops[0], rest);
      var next := rest[|Flatten(out)|..];
      ReadsAreTheBody(ops[1..], next);
      var r := TakenByAll(ops[1..], next);
      FlattenAllCons(out, r.0);
      assert rest == Flatten(out) + next;
      assert (Flatten(out) + FlattenAll(r.0)) + r.1 == Flatten(out) + (FlattenAll(r.0) + r.1);
    }
  }

  lemma FlattenAllCons(out: seq<seq<Byte>>, outs: seq<seq<seq<Byte>>>)
    ensures FlattenAll([out] + outs) == Flatten(out) + FlattenAll(outs)
  {
    assert ([out] + outs)[1..] == outs;
  }

  /** A read without a size at the end returns all the rest. */
  lemma {:induction false} ReadToTheEnd(ops: seq<Op>, rest: seq<Byte>)
    requires |ops| > 0 && ops[|ops| - 1] == Read(-1)
    ensures TakenByAll(ops, rest).1 == []
    decreases |ops|
  {
    hide TakenBy, Flatten;
    var out := TakenBy(ops[0], rest);
    TakenIsPrefix(ops[0], rest);
    if |ops| > 1 {
      ReadToTheEnd(ops[1..], rest[|Flatten(out)|..]);
    }
  }

  // ---- the same calls, as the application is promised them ----

  /** One line at the front of rest: a newline in it is its last octet, and one is there unless rest ends first. */
  predicate IsLine(line: seq<Byte>, rest: seq<Byte>) {
    && line <= rest && (line == [] ==> rest == [])
    && (forall j :: 0 <= j < |line| - 1 ==> line[j] != LF)
    && (|line| < |rest| ==> line[|line| - 1] == LF)
  }

  /** What a call answers that finds rest: as much as it asks for as far as that goes, or the line, cut to its limit,
      or lines until one reaches the hint or the end. */
  ghost predicate Answers(op: Op, out: seq<seq<Byte>>, rest: seq<Byte>) {
    match op
    case Read(n) => |out| == 1 && out[0] <= rest && |out[0]| == if 0 <= n < |rest| then n else |rest|
    case ReadLine(limit) =>
      && |out| == 1
      && exists line :: (IsLine(line, rest) && out[0] <= line
                         && |out[0]| == if 0 <= limit < |line| then limit else |line|)
    case ReadLines(hint) => AreLines(out, rest, hint, 0)
  }

  predicate AreLines(out: seq<seq<Byte>>, rest: seq<Byte>, hint: int, before: nat)
    decreases |out|
  {
    if out == [] then rest == [] || (hint > 0 && before >= hint)
    else
      && rest != [] && !(hint > 0 && before >= hint) && IsLine(out[0], rest)
      && AreLines(out[1..], rest[|out[0]|..], hint, before + |out[0]|)
  }

  /** Call after call, each finds what those before it have left. */
  ghost predicate Served(ops: seq<Op>, outs: seq<seq<seq<Byte>>>, rest: seq<Byte>)
    decreases |ops|
  {
    if ops == [] then outs == []
    else
      && outs != [] && Answers(ops[0], outs[0], rest) && Flatten(outs[0]) <= rest
      && Served(ops[1..], outs[1..], rest[|Flatten(outs[0])|..])
  }

  lemma LineIs(rest: seq<Byte>)
    ensures IsLine(rest[..LineLength(rest)], rest)
  {}

  lemma {:induction false} LinesAre(rest: seq<Byte>, hint: int, before: nat)
    requires !(hint > 0 && before >= hint)
    ensures AreLines(Lines(rest, hint, before), rest, hint, before)
    decreases |rest|
  {
    hide LineLength, Lines, IsLine;
    LinesOpen(rest, hint, before);
    if rest != [] {
      var n, ls := LineLength(rest), Lines(rest, hint, before);
      LineIs(rest);
      assert ls[1..] == MoreLines(rest, hint, before);
      if !(hint > 0 && before + n >= hint) { LinesAre(rest[n..], hint, before + n); }
    }
  }

  lemma OneAnswered(op: Op, rest: seq<Byte>)
    ensures Answers(op, TakenBy(op, rest), rest)
  {
    hide LineLength, IsLine, AreLines;
    match op
    case Read(n) =>
    case ReadLine(limit) => LineIs(rest); assert rest[..LineLength(rest)] <= rest;
    case ReadLines(hint) => LinesAre(rest, hint, 0);
  }

  /** Every call answers what it is to. */
  lemma {:induction false} AllAnswered(ops: seq<Op>, rest: seq<Byte>)
    ensures Served(ops, TakenByAll(ops, rest).0, rest)
    decreases |ops|
  {
    hide TakenBy, Flatten, Answers;
    if ops != [] {
      var out := TakenBy(ops[0], rest);
      TakenIsPrefix(ops[0], rest);
      OneAnswered(ops[0], rest);
      AllAnswered(ops[1..], rest[|Flatten(out)|..]);
      var r := TakenByAll(ops[1..], rest[|Flatten(out)|..]).0;
      assert ([out] + r)[1..] == r;
    }
  }

  /** Reads of positive size come back empty at the end of the body only, and as many of them as it has octets
      reach it. */
  lemma {:induction false} ReadsReachTheEnd(ops: seq<Op>, outs: seq<seq<seq<Byte>>>, rest: seq<Byte>)
    requires Served(ops, outs, rest) && forall op :: op in ops ==> op.Read? && op.size > 0
    ensures |outs| == |ops| && forall i :: 0 <= i < |ops| ==> |outs[i]| == 1
    ensures |ops| >= |rest| ==> FlattenAll(outs) == rest
    ensures forall i :: 0 <= i < |ops| && outs[i] == [[]] ==> FlattenAll(outs[..i]) == rest
    decreases |ops|
  {
    hide Flatten;
    if ops != [] {
      var s := outs[0][0];
      assert outs[0] == [s];
      FlattenOne(s);
      assert ops[0] in ops;
      ReadsReachTheEnd(ops[1..], outs[1..], rest[|s|..]);
      assert rest == s + rest[|s|..];
      forall i | 0 <= i < |ops| && outs[i] == [[]] ensures FlattenAll(outs[..i]) == rest {
        if i > 0 {
          assert outs[1..][i - 1] == outs[i] && outs[..i][1..] == outs[1..][..i - 1];
        }
      }
    }
  }

  lemma Cut(data: seq<Byte>, pos: nat, n: nat)
    requires pos + n <= |data|
    ensures data[pos..][n..] == data[pos + n..] && data[pos..pos + n] == data[pos..][..n]
    ensures data[pos..][..n] + data[pos..][n..] == data[pos..]
  {}

  class Input {
    const buffer: Buffer
    var pos: nat

    ghost predicate Valid()
      reads this, buffer, buffer.buf
    {
      buffer.Valid() && pos <= buffer.len
    }

    /** The octets held. */
    ghost function Data(): (s: seq<Byte>)
      requires buffer.Valid()
      reads buffer, buffer.buf
      ensures |s| == buffer.len
    {
      buffer.buf[..buffer.len]
    }

    /** What has not been read. */
    ghost function Rest(): seq<Byte>
      requires Valid()
      reads this, buffer, buffer.buf
    {
      Data()[pos..]
    }

    /** A piece of the buffer. */
    method Piece(output: nat, len: nat) returns (s: seq<Byte>)
      requires buffer.Valid() && output + len <= buffer.len
      ensures s == Data()[output..output + len]
    {
      s := buffer.buf[output..output + len];
    }

    /** InputObject_New. */
    constructor (buffer: Buffer)
      requires buffer.Valid()
      ensures this.buffer == buffer && Valid() && Rest() == Kept(buffer.written, buffer.limit)
    {
      this.buffer, pos := buffer, 0;
      new;
      assert Data()[0..] == Data();
    }

    /** InputObject_read. */
    method ReadSome(size: int) returns (s: seq<Byte>)
      requires Valid()
      modifies this`pos
      ensures Valid() && [s] == TakenBy(Read(size), old(Rest())) && s + Rest() == old(Rest())
      ensures |s| == if 0 <= size < |old(Rest())| then size else |old(Rest())|
    {
      var l, n := buffer.len - pos, size;
      if n < 0 || n > l {
        n := l;
      }
      hide Kept, Buffer.Valid;
      Cut(Data(), pos, n);
      assert n == l ==> Rest()[..n] == Rest();
      s := Piece(pos, n);
      pos := pos + n;
    }

    /** inner_readline. */
    method InnerReadLine() returns (output: nat, len: nat)
      requires Valid()
      modifies this`pos
      ensures Valid() && len == LineLength(old(Rest())) && output == old(pos) && pos == output + len
      ensures Rest() == old(Rest())[len..] && Data()[output..output + len] == old(Rest())[..len]
    {
      hide Kept;
      var start, end, l := pos, buffer.len, 0;
      ghost var rest := Rest();
      while start < end
        invariant start == pos + l <= end == buffer.len && l <= |rest|
        invariant LineLength(rest) == l + LineLength(rest[l..])
      {
        assert rest[l..][0] == buffer.buf[start] && rest[l..][1..] == rest[l + 1..];
        if buffer.buf[start] == LF { break; }
        start := start + 1;
        l := l + 1;
      }
      if start < end {
        l := l + 1;
      }
      output, len := pos, l;
      pos := pos + l;
      Cut(Data(), output, len);
    }

    /** InputObject_readline. */
    method ReadOneLine(size: int) returns (s: seq<Byte>)
      requires Valid()
      modifies this`pos
      ensures Valid() && [s] == TakenBy(ReadLine(size), old(Rest())) && s + Rest() == old(Rest())
      ensures var n := LineLength(old(Rest())); |s| == if 0 <= size < n then size else n
    {
      hide LineLength, Kept, Buffer.Valid;
      ghost var rest := Rest();
      var output, len := InnerReadLine();
      if 0 <= size < len {
        var delta := len - size;
        len := len - delta;
        pos := pos - delta;
      }
      Cut(Data(), output, len);
      s := Piece(output, len);
      assert s == rest[..len] && Rest() == rest[len..];
      assert s + Rest() == rest;
    }

    /** InputObject_readlines. */
    method ReadManyLines(hint: int) returns (result: seq<seq<Byte>>)
      requires Valid()
      modifies this`pos
      ensures Valid() && result == TakenBy(ReadLines(hint), old(Rest())) && Flatten(result) + Rest() == old(Rest())
    {
      hide Lines, Flatten, MoreLines, Kept, Buffer.Valid, LineLength;
      result := [];
      var length: nat := 0;
      ghost var rest := Rest();
      NothingAfter([]);
      while true
        invariant Valid() && !(hint > 0 && length >= hint)
        invariant Lines(rest, hint, 0) == result + Lines(Rest(), hint, length)
        invariant Flatten(result) + Rest() == rest
        decreases buffer.len - pos
      {
        ghost var now := Rest();
        LinesOpen(now, hint, length);
        var output, len := InnerReadLine();
        if len == 0 { break; }
        var line := Piece(output, len);
        AppendLine(rest, hint, length, result, now);
        MoreOpen(now, hint, length);
        result := result + [line];
        length := length + len;
        if hint > 0 && length >= hint { break; }
      }
    }

    /** One call. */
    method Perform(op: Op) returns (out: seq<seq<Byte>>)
      requires Valid()
      modifies this`pos
      ensures Valid() && out == TakenBy(op, old(Rest())) && Flatten(out) + Rest() == old(Rest())
    {
      hide Kept, Buffer.Valid, Flatten, Lines;
      match op {
        case Read(size) =>
          var s := ReadSome(size);
          FlattenOne(s);
          out := [s];
        case ReadLine(limit) =>
          var s := ReadOneLine(limit);
          FlattenOne(s);
          out := [s];
        case ReadLines(hint) =>
          out := ReadManyLines(hint);
      }
    }

    /** Any calls, one after the other. */
    method PerformAll(ops: seq<Op>) returns (outs: seq<seq<seq<Byte>>>)
      requires Valid()
      modifies this`pos
      ensures Valid() && (outs, Rest()) == TakenByAll(ops, old(Rest()))
      ensures Served(ops, outs, old(Rest())) && FlattenAll(outs) + Rest() == old(Rest())
    {
      hide Kept, Buffer.Valid, Flatten, TakenBy, TakenByAll, OnTrack, Served, FlattenAll;
      outs := [];
      ghost var all := TakenByAll(ops, Rest());
      NoCallYet(ops, Rest());
      for i := 0 to |ops|
        invariant Valid() && OnTrack(ops, all, outs, i, Rest())
      {
        ghost var now := Rest();
        var out := Perform(ops[i]);
        AfterOne(ops, all, outs, i, now, out, Rest());
        outs := outs + [out];
      }
      NoCallLeft(ops, all, outs, Rest());
      AllAnswered(ops, old(Rest()));
      ReadsAreTheBody(ops, old(Rest()));
    }
  }

  /** After i calls that returned outs, rest is what the other calls work on. */
  ghost predicate OnTrack(ops: seq<Op>, all: (seq<seq<seq<Byte>>>, seq<Byte>), outs: seq<seq<seq<Byte>>>, i: nat,
      rest: seq<Byte>)
    requires i <= |ops|
  {
    all == (outs + TakenByAll(ops[i..], rest).0, TakenByAll(ops[i..], rest).1)
  }

  lemma NoCallYet(ops: seq<Op>, rest: seq<Byte>)
    ensures OnTrack(ops, TakenByAll(ops, rest), [], 0, rest)
  {
    var all := TakenByAll(ops, rest);
    assert ops[0..] == ops && [] + all.0 == all.0;
  }

  lemma NoCallLeft(ops: seq<Op>, all: (seq<seq<seq<Byte>>>, seq<Byte>), outs: seq<seq<seq<Byte>>>, rest: seq<Byte>)
    requires OnTrack(ops, all, outs, |ops|, rest)
    ensures all == (outs, rest)
  {
    assert ops[|ops|..] == [] && outs + [] == outs;
  }

  lemma AfterOne(ops: seq<Op>, all: (seq<seq<seq<Byte>>>, seq<Byte>), outs: seq<seq<seq<Byte>>>, i: nat,
                 now: seq<Byte>, out: seq<seq<Byte>>, rest: seq<Byte>)
    requires i < |ops| && OnTrack(ops, all, outs, i, now) && out == TakenBy(ops[i], now) && Flatten(out) + rest == now
    ensures OnTrack(ops, all, outs + [out], i + 1, rest)
  {
    hide Flatten, TakenBy;
    TakenIsPrefix(ops[i], now);
    assert now[|Flatten(out)|..] == rest;
    assert ops[i..][1..] == ops[i + 1..];
    var later := TakenByAll(ops[i + 1..], rest).0;
    assert outs + ([out] + later) == (outs + [out]) + later;
  }

  /** One more line read by the loop of readlines. */
  lemma AppendLine(rest: seq<Byte>, hint: int, length: nat, result: seq<seq<Byte>>, now: seq<Byte>)
    requires now != [] && Lines(rest, hint, 0) == result + Lines(now, hint, length) && Flatten(result) + now == rest
    ensures var n := LineLength(now);
      && Lines(rest, hint, 0) == (result + [now[..n]]) + MoreLines(now, hint, length)
      && Flatten(result + [now[..n]]) + now[n..] == rest
  {
    var n, ls := LineLength(now), Lines(now, hint, length);
    hide Lines, MoreLines, Flatten;
    LinesOpen(now, hint, length);
    assert result + ([now[..n]] + MoreLines(now, hint, length)) == (result + [now[..n]]) + MoreLines(now, hint, length);
    FlattenConcat(result, [now[..n]]);
    FlattenOne(now[..n]);
    assert now == now[..n] + now[n..];
    assert Flatten(result) + (now[..n] + now[n..]) == (Flatten(result) + now[..n]) + now[n..];
  }
}
