/** The response writer: buckets of buffers, partial writev, chunked framing, suspend and resume. */
module ResponseWriter {
  import opened Bytes
  import opened Pieces
  import opened HttpRuns
  import opened Options
  import opened ResponseHeaders
  import opened ResponseRuns

  const UINT32: nat := 0x1_0000_0000

  /** n as a uint32_t. */
  function U32(n: nat): (r: nat)
    ensures r < UINT32
    ensures n < UINT32 ==> r == n
  {
    n % UINT32
  }

  lemma U32Add(a: nat, b: nat)
    ensures U32(U32(a) + b) == U32(a + b)
  {
  }

  /** The peer's end: what has arrived, in order, and the answers to come; without one writev takes everything. */
  class Socket {
    var sent: seq<Byte>
    var answers: seq<Answer>

    constructor (answers: seq<Answer>)
      ensures sent == [] && this.answers == answers
    {
      sent, this.answers := [], answers;
    }

    /** writev: some non-empty part of the bytes, an error, or 0 exactly when there are none. */
    method Writev(bufs: seq<seq<Byte>>) returns (w: int, again: bool)
      modifies this
      ensures var all := Flatten(bufs);
        if all == [] then w == 0 && sent == old(sent) && answers == old(answers)
        else if old(answers) == [] then w == |all| && sent == old(sent) + all && answers == []
        else
          && answers == old(answers)[1..]
          && match old(answers)[0]
             case Takes(_) => w == Part(old(answers)[0], |all|) && sent == old(sent) + all[..w]
             case WouldBlock => w == -1 && again && sent == old(sent)
             case Broken => w == -1 && !again && sent == old(sent)
    {
      var all := Flatten(bufs);
      w, again := 0, false;
      if all != [] {
        if answers == [] {
          w := |all|;
        } else {
          w := if answers[0].Takes? then Part(answers[0], |all|) else -1;
          again := answers[0].WouldBlock?;
          answers := answers[1..];
        }
      }
      if w >= 0 { sent := sent + all[..w]; }
    }
  }

  class Bucket {
    const iov: array<seq<Byte>>
    var iovCnt: nat
    var total: nat
    var totalSize: nat
    var sended: bool

    ghost predicate Valid()
      reads this
    {
      iovCnt <= iov.Length && total < UINT32 && totalSize < UINT32
    }

    /** The bytes still to be written. */
    ghost function Pending(): seq<Byte>
      requires Valid()
      reads this, iov
    {
      Flatten(iov[..iovCnt])
    }

    /** The counters of a bucket that has only been filled so far. */
    ghost predicate Exact()
      requires Valid()
      reads this, iov
    {
      total == totalSize == U32(|Pending()|)
    }

    /** new_write_bucket. */
    constructor (cnt: nat)
      ensures Valid() && fresh(iov) && iov.Length == cnt && iovCnt == 0 && totalSize == 0 && Pending() == [] && Exact()
    {
      iov := new seq<Byte>[cnt](_ => []);
      iovCnt, total, totalSize, sended := 0, 0, 0, false;
    }

    /** set2bucket: uint32_t counters. */
    method Set(buf: seq<Byte>)
      requires Valid() && iovCnt < iov.Length
      modifies this, iov
      ensures Valid() && iovCnt == old(iovCnt) + 1 && sended == old(sended)
      ensures Pending() == old(Pending()) + buf
      ensures total == U32(old(total) + |buf|) && totalSize == U32(old(totalSize) + |buf|)
      ensures old(Exact()) ==> Exact()
    {
      iov[iovCnt] := buf;
      iovCnt := iovCnt + 1;
      total := U32(total + |buf|);
      totalSize := U32(totalSize + |buf|);
      assert iov[..iovCnt] == old(iov[..iovCnt]) + [buf];
      FlattenOne(buf);
      FlattenConcat(old(iov[..iovCnt]), [buf]);
      U32Add(|old(Pending())|, |buf|);
    }

    /** The loop of writev_bucket after a partial write of w bytes; rest is what is left in w. */
    method Skip(w: nat) returns (rest: nat)
      requires Valid() && 0 < w <= |Pending()|
      modifies iov
      ensures Pending() == old(Pending())[w..] && rest <= w
    {
      hide Flatten;
      ghost var s := iov[..iovCnt];
      ghost var all := Flatten(s);
      rest := w;
      var i := 0;
      while i < iovCnt
        invariant i <= iovCnt && 0 < rest <= w
        invariant forall k :: 0 <= k < i ==> iov[k] == []
        invariant forall k :: i <= k < iovCnt ==> iov[k] == s[k]
        invariant rest <= |Flatten(s[i..])| && all[w - rest..] == Flatten(s[i..])
      {
        FlattenCons(s, i);
        if rest > |iov[i]| {
          rest := rest - |iov[i]|;
          iov[i] := [];
        } else {
          iov[i] := iov[i][rest..];
          break;
        }
        i := i + 1;
      }
      NothingAfter(s);
      assert iov[..iovCnt] == iov[..i] + ([s[i][rest..]] + s[i + 1..]);
      FlattenEmpty(iov[..i]);
      FlattenConcat(iov[..i], [s[i][rest..]] + s[i + 1..]);
      FlattenOne(s[i][rest..]);
      FlattenConcat([s[i][rest..]], s[i + 1..]);
    }

    /** writev_bucket.  Whatever each call of writev takes, no byte is lost, repeated or reordered; total stays an
        upper bound of what remains (it is lowered by less than was written); StatusOk means all of it is out. */
    method WritevBucket(sock: Socket) returns (status: Status)
      requires Valid() && |Pending()| <= total
      modifies this, iov, sock
      ensures Valid() && old(sock.sent) <= sock.sent
      ensures (status, sock.answers) == Result(old(sock.answers), |old(Pending())|)
      ensures sock.sent == old(sock.sent) + old(Pending())[..Out(old(sock.answers), |old(Pending())|).1]
      ensures status.StatusOk? ==> sended && sock.sent == old(sock.sent + Pending())
      ensures !status.StatusOk? ==>
        && sended == old(sended) && 0 < |Pending()| <= total && sock.sent + Pending() == old(sock.sent + Pending())
      ensures iovCnt == old(iovCnt) && totalSize == old(totalSize)
      decreases |Pending()|
    {
      hide Flatten;
      var w, again := sock.Writev(iov[..iovCnt]);
      if w == -1 {
        return if again then StatusSuspend else StatusError;
      }
      if w == 0 {
        sended := true;
        return StatusOk;
      }
      ghost var p := Pending();
      if total > w {
        var rest := Skip(w);
        total := total - rest;
        assert p[..w] + p[w..] == p;
        status := WritevBucket(sock);
      } else {
        assert p[..w] == p;
        sended := true;
        status := StatusOk;
      }
    }
  }

  /** add_header. */
  method AddHeader(b: Bucket, key: seq<Byte>, value: seq<Byte>)
    requires b.Valid() && b.iovCnt + 4 <= b.iov.Length
    modifies b, b.iov
    ensures b.Valid() && b.iovCnt == old(b.iovCnt) + 4
    ensures b.Pending() == old(b.Pending()) + HeaderLine(key, value)
    ensures old(b.Exact()) ==> b.Exact()
  {
    hide U32;
    b.Set(key);
    b.Set(Ascii(": "));
    b.Set(value);
    b.Set(CRLF);
    assert b.Pending() == old(b.Pending()) + HeaderLine(key, value);
  }

  /** set_chunked_data with the length text of get_chunk_data. */
  method SetChunkedData(b: Bucket, data: seq<Byte>)
    requires b.Valid() && b.iovCnt + 4 <= b.iov.Length
    modifies b, b.iov
    ensures b.Valid() && b.iovCnt == old(b.iovCnt) + 4
    ensures b.Pending() == old(b.Pending()) + Chunk(data)
    ensures old(b.Exact()) ==> b.Exact()
  {
    hide Hex, U32;
    b.Set(Hex(|data|));
    b.Set(CRLF);
    b.Set(data);
    b.Set(CRLF);
    assert b.Pending() == old(b.Pending()) + Chunk(data);
  }

  /** set_last_chunked_data. */
  method SetLastChunkedData(b: Bucket)
    requires b.Valid() && b.iovCnt + 3 <= b.iov.Length
    modifies b, b.iov
    ensures b.Valid() && b.Pending() == old(b.Pending()) + LastChunk
    ensures old(b.Exact()) ==> b.Exact()
  {
    hide U32;
    b.Set(['0' as int]);
    b.Set(CRLF);
    b.Set(CRLF);
    assert b.Pending() == old(b.Pending()) + LastChunk;
  }

  class Client {
    const sock: Socket
    const isHead: bool
    const httpMinor: nat
    const statusCode: nat
    const statusLine: seq<Byte>
    const date: seq<Byte>
    const keepAlive: bool
    const headers: seq<HttpHeader>
    /** What the response iterator has still to yield. */
    var items: seq<seq<Byte>>
    var headerDone: bool
    var chunked: bool
    var contentLengthSet: bool
    var contentLength: nat
    var writeBytes: nat
    var bucket: Bucket?
    /** What the socket had carried before, the header block, and the items taken from the iterator since. */
    ghost var start: seq<Byte>
    ghost var head: seq<Byte>
    ghost var taken: seq<seq<Byte>>
    /** Which writes have been held back: 0 for the header block and the first item, then the number of the item. */
    ghost var paused: set<nat>

    constructor (sock: Socket, isHead: bool, httpMinor: nat, statusCode: nat, statusLine: seq<Byte>, date: seq<Byte>,
                 keepAlive: bool, headers: seq<HttpHeader>, items: seq<seq<Byte>>)
      requires forall i :: 0 <= i < |items| ==> |items[i]| + 64 < UINT32
      requires |statusLine| + |date| + |HeaderLines(headers)| + 320 < UINT32
      ensures Valid() && Sized() && bucket == null && !headerDone && !chunked && !contentLengthSet && writeBytes == 0
      ensures this.sock == sock && this.items == items && this.headers == headers && this.isHead == isHead
      ensures this.httpMinor == httpMinor && this.statusCode == statusCode && this.statusLine == statusLine
      ensures this.date == date && this.keepAlive == keepAlive && contentLength == 0
      ensures start == sock.sent && head == [] && taken == [] && paused == {}
    {
      this.sock, this.isHead, this.httpMinor, this.statusCode := sock, isHead, httpMinor, statusCode;
      this.statusLine, this.date, this.keepAlive, this.headers := statusLine, date, keepAlive, headers;
      this.items, headerDone, chunked, contentLengthSet, contentLength := items, false, false, false, 0;
      writeBytes, bucket := 0, null;
      start, head, taken, paused := sock.sent, [], [], {};
    }

    /** The header block fits the 32-bit counters. */
    predicate Sized() {
      |statusLine| + |date| + |HeaderLines(headers)| + 320 < UINT32
    }

    ghost function Left(): seq<Byte>
      requires bucket != null ==> bucket.Valid()
      reads this, bucket, if bucket == null then {} else {bucket.iov}
    {
      if bucket == null then [] else bucket.Pending()
    }

    ghost predicate Valid()
      reads this, bucket, if bucket == null then {} else {bucket.iov}
    {
      && (bucket != null ==> bucket.Valid() && |bucket.Pending()| <= bucket.total)
      && (forall i :: 0 <= i < |items| ==> |items[i]| + 64 < UINT32)
    }

    /** Nothing lost, nothing twice, nothing out of order. */
    ghost predicate Conserved()
      requires Valid()
      reads this, sock, bucket, if bucket == null then {} else {bucket.iov}
    {
      sock.sent + Left() == start + head + Frames(chunked, taken)
    }

    ghost function PlanNow(): Plan
      reads this
    {
      Plan(chunked, if contentLengthSet then Some(contentLength) else None)
    }

    /** The point the response has come to. */
    ghost function PointAt(status: Status, last: Status): Point
      requires Valid()
      reads this, sock, bucket, if bucket == null then {} else {bucket.iov}
    {
      Point(status, last, taken, items, writeBytes, |sock.sent| - |start|, |Left()|,
            if bucket == null then 0 else bucket.totalSize, sock.answers, paused)
    }

    predicate NoBody() {
      isHead || statusCode < 200 || statusCode == 204 || statusCode == 304
    }

    function ConnectionValue(): seq<Byte> {
      if statusCode == 101 then Ascii("upgrade") else if keepAlive then Ascii("Keep-Alive") else Ascii("close")
    }

    function StatusLines(): seq<Byte> {
      statusLine + HeaderLine(Ascii("Server"), Ascii(SERVER)) + HeaderLine(Ascii("Date"), date)
    }

    function LastLines(chunked: bool): seq<Byte> {
      (if chunked then HeaderLine(Ascii("Transfer-Encoding"), Ascii("chunked")) else [])
      + HeaderLine(Ascii("Connection"), ConnectionValue()) + CRLF
    }

    /** The header block as sent. */
    function Head(chunked: bool): seq<Byte> {
      StatusLines() + HeaderLines(Kept(headers)) + LastLines(chunked)
    }

    /** add_status_line. */
    method AddStatusLine(b: Bucket)
      requires b.Valid() && b.Exact() && b.iovCnt + 9 <= b.iov.Length
      modifies b, b.iov
      ensures b.Valid() && b.Exact() && b.iovCnt == old(b.iovCnt) + 9 && b.Pending() == old(b.Pending()) + StatusLines()
    {
      hide U32, HeaderLine, Ascii;
      b.Set(statusLine);
      AddHeader(b, Ascii("Server"), Ascii(SERVER));
      AddHeader(b, Ascii("Date"), date);
      assert b.Pending() == old(b.Pending()) + StatusLines();
    }

    method AddLastLines(b: Bucket, chunked: bool)
      requires b.Valid() && b.Exact() && b.iovCnt + 9 <= b.iov.Length
      modifies b, b.iov
      ensures b.Valid() && b.Exact() && b.iovCnt <= old(b.iovCnt) + 9
        && b.Pending() == old(b.Pending()) + LastLines(chunked)
    {
      hide U32, HeaderLine, Ascii, ConnectionValue;
      if chunked {
        AddHeader(b, Ascii("Transfer-Encoding"), Ascii("chunked"));
      }
      AddHeader(b, Ascii("Connection"), ConnectionValue());
      b.Set(CRLF);
      assert b.Pending() == old(b.Pending()) + LastLines(chunked);
    }

    /** add_all_headers; false when a header is refused. */
    method AddAllHeaders(b: Bucket) returns (ok: bool)
      requires b.Valid() && b.iovCnt + 4 * |headers| <= b.iov.Length
      modifies b, b.iov, this`contentLengthSet, this`contentLength
      ensures b.Valid() && b.iovCnt <= old(b.iovCnt) + 4 * |headers| && (old(b.Exact()) ==> b.Exact())
      ensures ok <==> LengthAfter(headers, old(contentLengthSet), old(contentLength)).Some?
      ensures ok ==> b.Pending() == old(b.Pending()) + HeaderLines(Kept(headers))
      ensures ok ==>
        LengthAfter(headers, old(contentLengthSet), old(contentLength)) == Some((contentLengthSet, contentLength))
    {
      hide U32, SameName, HeaderLine, Refused, Kept, HeaderLines, Flatten, LengthAfter, Declared;
      var i := 0;
      NoHeaders(headers[..0], contentLengthSet, contentLength);
      ok := false;
      while i < |headers|
        invariant i <= |headers| && b.Valid() && b.iovCnt <= old(b.iovCnt) + 4 * i
        invariant old(b.Exact()) ==> b.Exact()
        invariant b.Pending() == old(b.Pending()) + HeaderLines(Kept(headers[..i]))
        invariant LengthAfter(headers[..i], old(contentLengthSet), old(contentLength))
          == Some((contentLengthSet, contentLength))
      {
        var h := headers[i];
        OneHeader(headers, i);
        LengthStep(headers, i, old(contentLengthSet), old(contentLength), contentLengthSet, contentLength);
        if Refused(h) {
          RefusedStays(headers, i + 1, old(contentLengthSet), old(contentLength));
          return;
        }
        if SameName(h.0, "server") || SameName(h.0, "date") {
          NotLength(h.0);
          i := i + 1;
          continue;
        }
        if !contentLengthSet && SameName(h.0, "content-length") {
          var l := Declared(h.1);
          if l == None {
            RefusedStays(headers, i + 1, old(contentLengthSet), old(contentLength));
            return;
          }
          contentLengthSet := true;
          contentLength := l.value;
        }
        AddHeader(b, h.0, h.1);
        LinesSnoc(Kept(headers[..i]), h);
        i := i + 1;
      }
      assert headers[..i] == headers;
      ok := true;
    }

    /** Header block and items are out or held back, in order; a bucket is held back exactly when suspended. */
    ghost predicate Carried(status: Status)
      requires Valid()
      reads this, sock, bucket, if bucket == null then {} else {bucket.iov}
    {
      && (status.StatusOk? ==> bucket == null) && (status.StatusSuspend? ==> bucket != null)
      && (!status.StatusError? ==> Conserved()) && sock.sent <= Body()
    }

    /** How the body is to be sent, once no header is refused. */
    function PlanFor(hasData: bool, length: nat): (plan: Plan)
      requires LengthAfter(headers, false, length).Some?
      ensures plan.limit.Some? ==> !plan.chunked
    {
      var (known, n) := LengthAfter(headers, false, length).value;
      Plan(hasData && !NoBody() && !known && httpMinor == 1, if known then Some(n) else None)
    }

    /** A body without a Content-Length goes out in chunks to a client of HTTP/1.1, or of any version .1, unless the
        request or the status asks for no body; a declared length is the number its header writes. */
    lemma PlanIs(hasData: bool, length: nat)
      requires LengthAfter(headers, false, length).Some?
      ensures var plan := PlanFor(hasData, length);
        && (plan.chunked <==>
              hasData && !isHead && statusCode >= 200 && statusCode != 204 && statusCode != 304 && httpMinor == 1
              && forall i :: 0 <= i < |headers| ==> !IsLength(headers[i]))
        && (plan.limit.Some? <==> exists i :: 0 <= i < |headers| && IsLength(headers[i]))
        && (forall i: nat, n: nat {:trigger Writes(Text(headers[i].1), n)} ::
              FirstLength(headers, i) && Writes(Text(headers[i].1), n) ==> plan.limit == Some(n))
    {
      hide LengthAfter, IsLength, Writes, Text, Declared;
      AcceptedExactly(headers, length);
      LengthKnown(headers, length);
      forall i: nat, n: nat | FirstLength(headers, i) && Writes(Text(headers[i].1), n)
        ensures PlanFor(hasData, length).limit == Some(n)
      {
        var d := Declared(headers[i].1).value;
        DeclaredExactly(headers[i].1, d);
        WritesOne(headers[i].1, n, d);
      }
    }

    /** write_headers and the first item: data is the item the iterator has just yielded, if any.
        The bucket is allocated for 4 buffers a header and 42 more, and never overflows. */
    method WriteHeaders(hasData: bool, data: seq<Byte>) returns (status: Status)
      requires Valid() && Sized() && bucket == null && !headerDone && !chunked && !contentLengthSet
      requires start == sock.sent && head == [] && taken == [] && writeBytes == 0 && paused == {}
      requires |HeaderLines(headers)| + |statusLine| + |date| + 256 + |data| + 64 < UINT32
      modifies this, sock
      ensures Valid() && items == old(items) && start == old(start)
      ensures bucket != null ==> fresh(bucket) && fresh(bucket.iov)
      ensures LengthAfter(headers, false, old(contentLength)).None? ==>
        status.StatusError? && sock.sent == old(sock.sent) && sock.answers == old(sock.answers)
      ensures LengthAfter(headers, false, old(contentLength)).Some? ==>
        && PlanNow() == PlanFor(hasData, old(contentLength)) && head == Head(chunked) && Carried(status)
        && PointAt(status, status)
        == Opened(old(sock.answers), |head|, if hasData then [data] else [], items, chunked)
      ensures status.StatusOk? ==> headerDone
    {
      hide U32, HeaderLines, Kept, Hex, Refused, Head, Frame, Frames, NoBody, LengthAfter, Out, Opened;
      var b := new Bucket(4 * |headers| + 42);
      var ok := FillHead(b, hasData);
      if !ok { return StatusError; }
      FillBody(b, hasData, data);
      HeadSize(chunked);
      FrameSize(data);
      status := SendHead(b, hasData, data);
    }

    /** Its end: the first writev. */
    method SendHead(b: Bucket, hasData: bool, data: seq<Byte>) returns (status: Status)
      requires Valid() && bucket == null && !headerDone && start == sock.sent
      requires b.Valid() && b.total == b.totalSize == |b.Pending()| && writeBytes == 0 && paused == {}
      requires b.Pending() == Head(chunked) + if hasData then Frame(chunked, data) else []
      modifies this`bucket, this`headerDone, this`writeBytes, this`head, this`taken, this`paused, sock, b, b.iov
      ensures Valid() && (bucket != null ==> bucket == b)
      ensures head == Head(chunked) && Carried(status)
      ensures PointAt(status, status)
        == Opened(old(sock.answers), |head|, if hasData then [data] else [], items, chunked)
      ensures status.StatusOk? ==> headerDone
    {
      hide U32, HeaderLines, Hex, Head, Frame, Frames, Flatten, Out;
      ghost var t := b.Pending();
      Heading(start, hasData, data, t);
      status := b.WritevBucket(sock);
      if status.StatusSuspend? {
        bucket, paused := b, {0};
      } else {
        headerDone := true;
        if status.StatusOk? && hasData { writeBytes := writeBytes + |data|; }
      }
      head := Head(chunked);
      taken := if hasData then [data] else [];
    }

    /** The first write in terms of the items. */
    lemma Heading(s: seq<Byte>, hasData: bool, data: seq<Byte>, t: seq<Byte>)
      requires t == Head(chunked) + if hasData then Frame(chunked, data) else []
      ensures var xs := if hasData then [data] else [];
        && |Flatten(xs)| == (if hasData then |data| else 0) && |t| == |Head(chunked)| + |Frames(chunked, xs)|
        && s + t == s + Head(chunked) + Frames(chunked, xs) && s + t + [] == s + t
    {
      hide Head, Frame, Frames, Flatten;
      FirstFrame(chunked, hasData, data);
      FlattenFirst(hasData, data);
      assert t == Head(chunked) + Frames(chunked, if hasData then [data] else []);
    }

    /** The header part of write_headers. */
    method FillHead(b: Bucket, hasData: bool) returns (ok: bool)
      requires b.Valid() && b.Exact() && b.iovCnt == 0 && b.Pending() == [] && b.iov.Length == 4 * |headers| + 42
      requires !chunked && !contentLengthSet
      modifies b, b.iov, this`chunked, this`contentLengthSet, this`contentLength
      ensures b.Valid() && b.Exact() && b.iovCnt + 4 <= b.iov.Length
      ensures ok <==> LengthAfter(headers, false, old(contentLength)).Some?
      ensures ok ==> b.Pending() == Head(chunked) && PlanNow() == PlanFor(hasData, old(contentLength))
    {
      hide U32, HeaderLines, Kept, Refused, NoBody, SameName, StatusLines, LastLines, LengthAfter;
      AddStatusLine(b);
      ok := AddAllHeaders(b);
      if !ok { return; }
      if !NoBody() && hasData && !contentLengthSet && httpMinor == 1 {
        chunked := true;
      }
      AddLastLines(b, chunked);
      assert b.Pending() == Head(chunked);
    }

    /** set_first_body_data. */
    method FillBody(b: Bucket, hasData: bool, data: seq<Byte>)
      requires b.Valid() && b.Exact() && b.iovCnt + 4 <= b.iov.Length
      modifies b, b.iov
      ensures b.Valid() && b.Exact()
      ensures b.Pending() == old(b.Pending()) + (if hasData then Frame(chunked, data) else [])
    {
      hide U32, Hex;
      if hasData {
        if chunked { SetChunkedData(b, data); } else { b.Set(data); }
      }
    }

    /** One turn of process_write: the next item, as one bucket. */
    method WriteItem() returns (status: Status)
      requires Valid() && bucket == null && items != [] && Conserved()
      modifies this, sock
      ensures Valid() && Conserved() && Framing(old(start), old(head), old(PlanNow()))
      ensures bucket != null ==> fresh(bucket) && fresh(bucket.iov)
      ensures status.StatusOk? <==> bucket == null
      ensures PointAt(status, status) == Sent(old(PointAt(StatusOk, StatusOk)), chunked) && items == old(items)[1..]
    {
      hide Frame, Frames, Flatten, Out;
      var b := ItemBucket(items[0]);
      status := WriteFrame(b);
    }

    /** The bucket of an item goes out, or is held back. */
    method WriteFrame(b: Bucket) returns (status: Status)
      requires Valid() && bucket == null && items != [] && Conserved()
      requires b.Valid() && b.Pending() == Frame(chunked, items[0]) && b.total == b.totalSize == |b.Pending()|
      modifies this`items, this`taken, this`bucket, this`paused, this`writeBytes, sock, b, b.iov
      ensures Valid() && Conserved() && (bucket != null ==> bucket == b)
      ensures status.StatusOk? <==> bucket == null
      ensures PointAt(status, status) == Sent(old(PointAt(StatusOk, StatusOk)), chunked) && items == old(items)[1..]
    {
      hide U32, Frame, Frames, Flatten, Out;
      var item := items[0];
      items := items[1..];
      Regrouped(start + head, taken, item, sock.sent, b.Pending());
      status := b.WritevBucket(sock);
      ghost var number := |taken|;
      taken := taken + [item];
      if !status.StatusOk? {
        bucket := b;
        if status.StatusSuspend? { paused := paused + {number}; }
        return;
      }
      writeBytes := writeBytes + |item|;
    }

    /** The bucket for one item. */
    method ItemBucket(item: seq<Byte>) returns (b: Bucket)
      requires |item| + 64 < UINT32
      ensures fresh(b) && fresh(b.iov) && b.Valid()
      ensures b.Pending() == Frame(chunked, item) && b.total == b.totalSize == |b.Pending()|
    {
      hide U32, Hex, Chunk, Flatten;
      b := new Bucket(if chunked then 4 else 1);
      FrameSize(item);
      if chunked { SetChunkedData(b, item); } else { b.Set(item); }
    }

    lemma Regrouped(a: seq<Byte>, xs: seq<seq<Byte>>, x: seq<Byte>, sent: seq<Byte>, pending: seq<Byte>)
      requires sent + [] == a + Frames(chunked, xs) && pending == Frame(chunked, x)
      ensures sent + pending == a + Frames(chunked, xs + [x]) && (sent + pending) + [] == sent + pending
    {
      hide Frames, Frame;
      FramesSnoc(chunked, xs, x);
      assert a + (Frames(chunked, xs) + Frame(chunked, x)) == (a + Frames(chunked, xs)) + Frame(chunked, x);
    }

    /** What no later step changes. */
    ghost predicate Framing(start0: seq<Byte>, head0: seq<Byte>, plan0: Plan)
      reads this
    {
      start == start0 && head == head0 && PlanNow() == plan0
    }

    /** What the items taken come to on the wire, and the end of a chunked body. */
    ghost function Body(): seq<Byte>
      reads this
    {
      start + head + Frames(chunked, taken)
    }

    ghost function Tail(): seq<Byte>
      reads this
    {
      if chunked then LastChunk else []
    }

    /** Header block and items are out, and the last chunk as well exactly if its write, which the source does not
        look at, ended with last == StatusOk. */
    ghost predicate Ended(last: Status)
      reads this, sock
    {
      && Body() <= sock.sent <= Body() + Tail()
      && (sock.sent == Body() + Tail() <==> last.StatusOk?)
      && (!chunked ==> last.StatusOk?)
    }

    /** What process_write leaves. */
    ghost predicate Standing(status: Status, last: Status)
      requires Valid()
      reads this, sock, bucket, if bucket == null then {} else {bucket.iov}
    {
      && (status.StatusOk? ==> bucket == null && Ended(last))
      && (status.StatusSuspend? ==> bucket != null && Conserved())
      && (status.StatusError? ==> sock.sent <= Body())
    }

    /** process_write.  The items go out whole and in order, until the iterator ends or the declared length is
        reached.  A chunked body then ends with the last chunk; StatusOk is returned whatever its write comes to. */
    method ProcessWrite() returns (status: Status, ghost last: Status)
      requires Valid() && bucket == null && Conserved()
      modifies this, sock
      ensures Valid() && Framing(old(start), old(head), old(PlanNow())) && Standing(status, last)
      ensures bucket != null ==> fresh(bucket) && fresh(bucket.iov)
      ensures PointAt(status, last) == Write(old(PointAt(StatusOk, StatusOk)), PlanNow())
    {
      hide Frames, Frame, LastChunk, Out, Sent;
      last := StatusOk;
      ghost var p, plan := PointAt(StatusOk, StatusOk), PlanNow();
      while items != []
        invariant Valid() && bucket == null && Conserved() && Framing(old(start), old(head), plan)
        invariant Write(p, plan) == Write(PointAt(StatusOk, StatusOk), plan)
        decreases |items|
      {
        status := WriteItem();
        last := status;
        if !status.StatusOk? {
          assert sock.sent <= sock.sent + Left();
          return;
        }
        if contentLengthSet && contentLength <= writeBytes { break; }
      }
      last := StatusOk;
      ghost var body := sock.sent;
      if chunked {
        last := WriteLastChunk();
      }
      assert body == Body();
      assert body + [] == body;
      status := StatusOk;
    }

    /** The end of process_write: the status of this write is dropped. */
    method WriteLastChunk() returns (ghost last: Status)
      modifies sock
      ensures sock.sent == old(sock.sent) + LastChunk <==> last.StatusOk?
      ensures (last, sock.answers) == Result(old(sock.answers), |LastChunk|)
      ensures sock.sent == old(sock.sent) + LastChunk[..Out(old(sock.answers), |LastChunk|).1]
    {
      hide U32, Out;
      var b := new Bucket(3);
      SetLastChunkedData(b);
      assert b.Pending() == LastChunk;
      LastChunkLength();
      var r := b.WritevBucket(sock);
      last := r;
      if !r.StatusOk? {
        assert sock.sent + b.Pending() == old(sock.sent) + LastChunk;
        assert |sock.sent| < |old(sock.sent) + LastChunk|;
      }
    }

    /** process_body: retry the bucket that was held back, then go on. */
    method ProcessBody() returns (status: Status, ghost last: Status)
      requires Valid() && Conserved()
      modifies this, sock, bucket, if bucket == null then {} else {bucket.iov}
      ensures Valid() && Framing(old(start), old(head), old(PlanNow())) && Standing(status, last)
      ensures bucket != null && bucket != old(bucket) ==> fresh(bucket) && fresh(bucket.iov)
      ensures PointAt(status, last) ==
        if old(bucket) == null then Write(old(PointAt(StatusOk, StatusOk)), PlanNow())
        else Retry(old(PointAt(StatusSuspend, StatusSuspend)), PlanNow())
    {
      hide Frames, Frame, LastChunk, Out, Write;
      if bucket != null {
        status := bucket.WritevBucket(sock);
        last := status;
        if status.StatusOk? {
          writeBytes := writeBytes + bucket.totalSize;
          bucket := null;
        } else if status.StatusError? {
          assert sock.sent <= sock.sent + bucket.Pending();
          bucket := null;
          return;
        } else {
          return;
        }
      }
      status, last := ProcessWrite();
    }

    /** response_start, then process_body after each suspension, for as long as the caller keeps resuming.  All that
        becomes of it is what Whole says of the answers of writev; at every point what has been sent is the
        beginning of the header block, the items taken and the last chunk, and all of that but what is held back.
        A finished response has sent every item exactly if it stops behind none of them; it has sent the whole body if
        its Content-Length writes the length of that and the header block was not held back. */
    method Respond(resumes: nat) returns (status: Status, ghost last: Status)
      requires Fresh()
      modifies this, sock
      ensures Valid() && start == old(start)
      ensures LengthAfter(headers, false, old(contentLength)).None? ==>
        status.StatusError? && sock.sent == old(sock.sent) && sock.answers == old(sock.answers)
      ensures LengthAfter(headers, false, old(contentLength)).Some? ==>
        && PlanNow() == PlanFor(Given(old(items)) != [], old(contentLength)) && head == Head(chunked)
        && PointAt(status, last) == Whole(old(sock.answers), |head|, Given(old(items)), PlanNow(), resumes)
        && taken + items == Given(old(items)) && Standing(status, last)
        && (status.StatusOk? && 0 !in paused && LengthGiven(|Flatten(taken + items)|) ==>
              Flatten(taken) == Flatten(taken + items))
        && (status.StatusOk? ==>
              (items == [] <==>
                forall j: nat :: j < |taken + items| - 1 ==> !Stops(taken + items, |head|, PlanNow().limit, paused, j)))
    {
      hide Frames, Frame, LastChunk, Head, NoBody, LengthAfter, Out, Flatten, Whole, Resume, Retry, Write, Opened,
           Stops, PlanFor, LengthGiven, Left;
      ghost var all := Given(items);
      ghost var answers := sock.answers;
      if statusCode == 304 {
        items := [];
      }
      status, last := Begin();
      ghost var plan, known := PlanNow(), LengthAfter(headers, false, old(contentLength)).Some?;
      WholeIs(answers, |head|, all, plan, resumes);
      var n := resumes;
      while status.StatusSuspend? && n > 0
        invariant Valid() && start == old(start)
        invariant bucket != null ==> fresh(bucket) && fresh(bucket.iov)
        invariant !known ==> status.StatusError? && sock.sent == old(sock.sent) && sock.answers == old(sock.answers)
        invariant known ==> Framing(old(start), Head(chunked), plan) && Underway(answers, all, resumes, status, last, n)
      {
        status, last := Again(answers, all, resumes, last, n);
        n := n - 1;
      }
      if known {
        ResumeNone(PointAt(status, last), plan, n);
        Exactly(answers, |head|, all, plan, resumes);
        if LengthGiven(|Flatten(all)|) {
          LimitGiven(all != [], old(contentLength), |Flatten(all)|);
          Honest(answers, |head|, all, plan, resumes);
        }
      }
    }

    /** The first Content-Length among the headers writes n. */
    ghost predicate LengthGiven(n: nat) {
      exists i: nat :: FirstLength(headers, i) && Writes(Text(headers[i].1), n)
    }

    lemma LimitGiven(hasData: bool, length: nat, n: nat)
      requires LengthAfter(headers, false, length).Some? && LengthGiven(n)
      ensures PlanFor(hasData, length).limit == Some(n)
    {
      hide LengthAfter, Writes, Text, IsLength, PlanFor;
      PlanIs(hasData, length);
      var i: nat :| FirstLength(headers, i) && Writes(Text(headers[i].1), n);
    }

    /** process_body after a suspension. */
    method Again(ghost answers: seq<Answer>, ghost all: seq<seq<Byte>>, ghost resumes: nat, ghost was: Status,
                 ghost left: nat)
      returns (status: Status, ghost last: Status)
      requires Valid() && left > 0 && Underway(answers, all, resumes, StatusSuspend, was, left)
      modifies this, sock, bucket, if bucket == null then {} else {bucket.iov}
      ensures Valid() && Framing(old(start), old(head), old(PlanNow()))
      ensures bucket != null && bucket != old(bucket) ==> fresh(bucket) && fresh(bucket.iov)
      ensures Underway(answers, all, resumes, status, last, left - 1)
    {
      hide Frames, Frame, LastChunk, Out, Whole, Resume, Retry, Write;
      ResumeOne(PointAt(StatusSuspend, was), PlanNow(), left);
      status, last := ProcessBody();
    }

    /** Between two suspensions. */
    ghost predicate Underway(answers: seq<Answer>, all: seq<seq<Byte>>, resumes: nat, status: Status, last: Status,
                             left: nat)
      requires Valid()
      reads this, sock, bucket, if bucket == null then {} else {bucket.iov}
    {
      && Standing(status, last)
      && Whole(answers, |head|, all, PlanNow(), resumes) == Resume(PointAt(status, last), PlanNow(), left)
    }

    /** A client whose response has not begun. */
    ghost predicate Fresh()
      reads this, sock, bucket, if bucket == null then {} else {bucket.iov}
    {
      && Valid() && Sized() && bucket == null && !headerDone && !chunked && !contentLengthSet
      && start == sock.sent && head == [] && taken == [] && writeBytes == 0 && paused == {}
      && (items != [] ==> |HeaderLines(headers)| + |statusLine| + |date| + 256 + |items[0]| + 64 < UINT32)
    }

    /** The items of a response: a 304 has none. */
    function Given(xs: seq<seq<Byte>>): seq<seq<Byte>> {
      if statusCode == 304 then [] else xs
    }

    /** response_start: header block and first item, then the others. */
    method Begin() returns (status: Status, ghost last: Status)
      requires Fresh()
      modifies this, sock
      ensures Valid() && start == old(start)
      ensures bucket != null ==> fresh(bucket) && fresh(bucket.iov)
      ensures LengthAfter(headers, false, old(contentLength)).None? ==>
        status.StatusError? && sock.sent == old(sock.sent) && sock.answers == old(sock.answers)
      ensures LengthAfter(headers, false, old(contentLength)).Some? ==>
        && PlanNow() == PlanFor(old(items) != [], old(contentLength)) && head == Head(chunked)
        && Standing(status, last)
        && PointAt(status, last) == Start(old(sock.answers), |head|, old(items), PlanNow())
    {
      hide Frames, Frame, LastChunk, Head, NoBody, LengthAfter, Out, Flatten, Write, Opened, PlanFor;
      ghost var all := items;
      status := First();
      last := status;
      if status.StatusOk? {
        status, last := ProcessWrite();
      }
    }

    /** The first write of response_start. */
    method First() returns (status: Status)
      requires Fresh()
      modifies this, sock
      ensures Valid() && start == old(start)
      ensures bucket != null ==> fresh(bucket) && fresh(bucket.iov)
      ensures LengthAfter(headers, false, old(contentLength)).None? ==>
        status.StatusError? && sock.sent == old(sock.sent) && sock.answers == old(sock.answers)
      ensures LengthAfter(headers, false, old(contentLength)).Some? ==>
        && PlanNow() == PlanFor(old(items) != [], old(contentLength)) && head == Head(chunked) && Carried(status)
        && PointAt(status, status) == var k := if old(items) == [] then 0 else 1;
          Opened(old(sock.answers), |head|, old(items)[..k], old(items)[k..], chunked)
      ensures status.StatusOk? ==> LengthAfter(headers, false, old(contentLength)).Some?
    {
      hide Frames, Frame, LastChunk, Head, NoBody, LengthAfter, Out, Flatten, Opened, PlanFor;
      ghost var all := items;
      if items == [] {
        status := WriteHeaders(false, []);
        assert all[..0] == [] && all[0..] == [];
      } else {
        var item := items[0];
        items := items[1..];
        status := WriteHeaders(true, item);
        assert all[..1] == [item];
      }
    }

    lemma HeadSize(c: bool)
      ensures |statusLine| <= |Head(c)| <= |statusLine| + |date| + |HeaderLines(headers)| + 200
    {
      hide HeaderLines, Kept;
      KeptShorter(headers);
    }

    lemma FrameSize(x: seq<Byte>)
      requires |x| < UINT32
      ensures |Frame(true, x)| <= |x| + 20 && |Frame(false, x)| == |x|
    {
      hide Hex;
      HexLength(|x|);
    }
  }

  lemma FlattenFirst(hasData: bool, data: seq<Byte>)
    ensures |Flatten(if hasData then [data] else [])| == if hasData then |data| else 0
  {
    FlattenOne(data);
  }

  lemma FirstFrame(chunked: bool, hasData: bool, data: seq<Byte>)
    ensures Frames(chunked, if hasData then [data] else []) == if hasData then Frame(chunked, data) else []
  {
    hide Hex;
    assert [] + [data] == [data];
    FramesSnoc(chunked, [], data);
    assert Frames(chunked, []) == [];
  }
}
