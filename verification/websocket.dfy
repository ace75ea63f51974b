/** WebSocket framing: packing messages, reading frames back from whatever pieces recv returns. */
module WebSocketFraming {
  import opened Bytes
  import opened Pieces
  import opened Options

  /** Text is held as its UTF-8 octets. */
  datatype Message = Text(payload: seq<Byte>) | Binary(payload: seq<Byte>)

  type Key = k: seq<Byte> | |k| == 4 witness [0, 0, 0, 0]

  datatype Frame = Frame(fin: bool, opcode: nat, key: Option<Key>, payload: seq<Byte>)

  /** A frame and the number of octets it took. */
  datatype Read = Read(frame: Frame, size: nat)

  datatype Length = Length(length: nat, idx: nat)

  // ---- text ----

  predicate Follows(b: Byte) {
    0x80 <= b < 0xC0
  }

  /** Octets that decode as UTF-8 (section 4 of RFC 3629). */
  predicate WellFormed(s: seq<Byte>)
    decreases |s|
  {
    if s == [] then true
    else if s[0] < 0x80 then WellFormed(s[1..])
    else if 0xC2 <= s[0] < 0xE0 then |s| >= 2 && Follows(s[1]) && WellFormed(s[2..])
    else if 0xE0 <= s[0] < 0xF0 then
      && |s| >= 3 && Follows(s[1]) && Follows(s[2])
      && (s[0] == 0xE0 ==> s[1] >= 0xA0) && (s[0] == 0xED ==> s[1] < 0xA0)
      && WellFormed(s[3..])
    else
      && 0xF0 <= s[0] < 0xF5 && |s| >= 4 && Follows(s[1]) && Follows(s[2]) && Follows(s[3])
      && (s[0] == 0xF0 ==> s[1] >= 0x90) && (s[0] == 0xF4 ==> s[1] < 0x90)
      && WellFormed(s[4..])
  }

  /** The numbers of characters: all of Unicode but the surrogates. */
  predicate IsScalar(c: nat) {
    c < 0xD800 || 0xE000 <= c < 0x11_0000
  }

  /** UTF-8 of one character (section 3 of RFC 3629). */
  function Encode(c: nat): (s: seq<Byte>)
    requires IsScalar(c)
    ensures |s| > 0
  {
    if c < 0x80 then [c]
    else if c < 0x800 then [0xC0 + c / 0x40, 0x80 + c % 0x40]
    else if c < 0x1_0000 then [0xE0 + c / 0x1000, 0x80 + c / 0x40 % 0x40, 0x80 + c % 0x40]
    else [0xF0 + c / 0x4_0000, 0x80 + c / 0x1000 % 0x40, 0x80 + c / 0x40 % 0x40, 0x80 + c % 0x40]
  }

  function EncodeAll(cs: seq<nat>): seq<Byte>
    requires forall c :: c in cs ==> IsScalar(c)
  {
    if cs == [] then [] else Encode(cs[0]) + EncodeAll(cs[1..])
  }

  ghost predicate IsText(s: seq<Byte>) {
    exists cs: seq<nat> :: (forall c :: c in cs ==> IsScalar(c)) && EncodeAll(cs) == s
  }

  lemma EncodeFirst(c: nat, s: seq<Byte>)
    requires IsScalar(c)
    ensures WellFormed(Encode(c) + s) <==> WellFormed(s)
  {
    var e := Encode(c);
    assert (e + s)[|e|..] == s;
    assert forall i :: 0 <= i < |e| ==> (e + s)[i] == e[i];
  }

  lemma {:induction false} EncodedIsWell(cs: seq<nat>)
    requires forall c :: c in cs ==> IsScalar(c)
    ensures WellFormed(EncodeAll(cs))
    decreases |cs|
  {
    if cs != [] {
      EncodedIsWell(cs[1..]);
      EncodeFirst(cs[0], EncodeAll(cs[1..]));
    }
  }

  lemma TwoOctets(a: int, b: int) returns (c: nat)
    requires 0xC2 <= a < 0xE0 && 0x80 <= b < 0xC0
    ensures IsScalar(c) && Encode(c) == [a, b]
  {
    c := (a - 0xC0) * 0x40 + (b - 0x80);
  }

  lemma ThreeOctets(a: int, b: int, d: int) returns (c: nat)
    requires 0xE0 <= a < 0xF0 && 0x80 <= b < 0xC0 && 0x80 <= d < 0xC0
    requires (a == 0xE0 ==> b >= 0xA0) && (a == 0xED ==> b < 0xA0)
    ensures IsScalar(c) && Encode(c) == [a, b, d]
  {
    var x := (a - 0xE0) * 0x40 + (b - 0x80);
    c := x * 0x40 + (d - 0x80);
    assert c / 0x40 == x && c / 0x1000 == x / 0x40 == a - 0xE0;
  }

  lemma FourOctets(a: int, b: int, d: int, e: int) returns (c: nat)
    requires 0xF0 <= a < 0xF5 && 0x80 <= b < 0xC0 && 0x80 <= d < 0xC0 && 0x80 <= e < 0xC0
    requires (a == 0xF0 ==> b >= 0x90) && (a == 0xF4 ==> b < 0x90)
    ensures IsScalar(c) && Encode(c) == [a, b, d, e]
  {
    var x := (a - 0xF0) * 0x40 + (b - 0x80);
    var y := x * 0x40 + (d - 0x80);
    c := y * 0x40 + (e - 0x80);
    assert c / 0x40 == y && c / 0x1000 == y / 0x40 == x && c / 0x4_0000 == x / 0x40 == a - 0xF0;
  }

  /** The character at the front of octets that decode. */
  lemma FirstCharacter(s: seq<Byte>) returns (c: nat, n: nat)
    requires s != [] && WellFormed(s)
    ensures IsScalar(c) && 0 < n <= |s| && Encode(c) == s[..n] && WellFormed(s[n..])
  {
    hide Encode, IsScalar;
    if s[0] < 0x80 {
      c, n := s[0], 1;
      OneOctet(c);
    } else if s[0] < 0xE0 {
      c := TwoOctets(s[0], s[1]);
      n := 2;
    } else if s[0] < 0xF0 {
      c := ThreeOctets(s[0], s[1], s[2]);
      n := 3;
    } else {
      c := FourOctets(s[0], s[1], s[2], s[3]);
      n := 4;
    }
  }

  lemma OneOctet(c: nat)
    requires c < 0x80
    ensures IsScalar(c) && Encode(c) == [c]
  {}

  lemma {:induction false} WellIsEncoded(s: seq<Byte>) returns (cs: seq<nat>)
    requires WellFormed(s)
    ensures (forall c :: c in cs ==> IsScalar(c)) && EncodeAll(cs) == s
    decreases |s|
  {
    hide WellFormed, Encode;
    cs := [];
    if s != [] {
      var c, n := FirstCharacter(s);
      var more := WellIsEncoded(s[n..]);
      cs := [c] + more;
      assert cs[1..] == more;
      assert s == s[..n] + s[n..];
    }
  }

  /** Octets decode exactly if they are the encoding of some characters. */
  lemma DecodesExactly(s: seq<Byte>)
    ensures WellFormed(s) <==> IsText(s)
  {
    hide WellFormed, EncodeAll;
    if WellFormed(s) { var cs := WellIsEncoded(s); }
    if IsText(s) {
      var cs: seq<nat> :| (forall c :: c in cs ==> IsScalar(c)) && EncodeAll(cs) == s;
      EncodedIsWell(cs);
    }
  }

  /** A text is what encoding a str gives. */
  predicate IsMessage(m: Message) {
    m.Text? ==> WellFormed(m.payload)
  }

  // ---- numbers and masks ----

  /** struct.unpack of a big-endian number. */
  function Number(s: seq<Byte>): (n: nat) {
    if s == [] then 0 else Number(s[..|s| - 1]) * 256 + s[|s| - 1]
  }

  /** struct.pack of a number into k octets, big-endian. */
  function Octets(n: nat, k: nat): (s: seq<Byte>)
    ensures |s| == k
  {
    if k == 0 then [] else Octets(n / 256, k - 1) + [n % 256]
  }

  function Power(k: nat): (p: nat)
    ensures p > 0
  {
    if k == 0 then 1 else 256 * Power(k - 1)
  }

  lemma {:induction false} NumberOctets(n: nat, k: nat)
    requires n < Power(k)
    ensures Number(Octets(n, k)) == n
  {
    if k > 0 {
      NumberOctets(n / 256, k - 1);
      var s := Octets(n, k);
      assert s[..|s| - 1] == Octets(n / 256, k - 1);
    }
  }

  lemma Powers()
    ensures Power(2) == 0x1_0000 && Power(8) == 0x1_0000_0000_0000_0000
  {
    assert Power(1) == 256;
    assert Power(2) == 256 * 256;
    assert Power(4) == 0x1_0000_0000 by { assert Power(3) == 0x100_0000; }
    assert Power(6) == 0x1_0000_0000_0000 by { assert Power(5) == 0x100_0000_0000; }
    assert Power(7) == 0x100_0000_0000_0000;
  }

  /** Exclusive or of two numbers, bit by bit. */
  function XorBits(a: nat, b: nat): (r: nat)
    decreases a + b
  {
    if a == 0 && b == 0 then 0
    else 2 * XorBits(a / 2, b / 2) + if a % 2 == b % 2 then 0 else 1
  }

  lemma {:induction false} XorBelow(a: nat, b: nat, k: nat)
    requires k > 0 && a < k && b < k && k in {1, 2, 4, 8, 16, 32, 64, 128, 256}
    ensures XorBits(a, b) < k
    decreases k
  {
    if k > 1 { XorBelow(a / 2, b / 2, k / 2); }
  }

  lemma {:induction false} XorTwiceBits(a: nat, b: nat)
    ensures XorBits(XorBits(a, b), b) == a
    decreases a + b
  {
    hide XorBits;
    XorStep(a, b);
    XorStep(XorBits(a, b), b);
    if a != 0 || b != 0 { XorTwiceBits(a / 2, b / 2); }
  }

  lemma XorStep(a: nat, b: nat)
    ensures XorBits(a, b) / 2 == XorBits(a / 2, b / 2) && XorBits(a, b) % 2 == (if a % 2 == b % 2 then 0 else 1)
    ensures a == 0 && b == 0 ==> XorBits(a, b) == 0
  {}

  function Xor(a: Byte, b: Byte): Byte {
    XorBelow(a, b, 256);
    XorBits(a, b)
  }

  lemma XorTwice(a: Byte, b: Byte)
    ensures Xor(Xor(a, b), b) == a
  {
    XorTwiceBits(a, b);
  }

  /** Bit k of a number. */
  function BitOf(a: nat, k: nat): nat {
    if k == 0 then a % 2 else BitOf(a / 2, k - 1)
  }

  /** Bit k of an exclusive or is set exactly where the two differ. */
  lemma {:induction false} XorBit(a: nat, b: nat, k: nat)
    ensures BitOf(XorBits(a, b), k) == if BitOf(a, k) == BitOf(b, k) then 0 else 1
    decreases k
  {
    hide XorBits;
    XorStep(a, b);
    if k > 0 { XorBit(a / 2, b / 2, k - 1); }
  }

  /** zip(data, cycle(maskdata)) with exclusive or. */
  function Masked(data: seq<Byte>, key: Key): (r: seq<Byte>)
    ensures |r| == |data|
  {
    seq(|data|, i requires 0 <= i < |data| => Xor(data[i], key[i % 4]))
  }

  lemma MaskedTwice(data: seq<Byte>, key: Key)
    ensures Masked(Masked(data, key), key) == data
  {
    forall i | 0 <= i < |data| ensures Masked(Masked(data, key), key)[i] == data[i] {
      XorTwice(data[i], key[i % 4]);
    }
  }

  // ---- the printer ----

  /** The length octets, with the mask bit. */
  function LengthOctets(mask: nat, length: nat): seq<Byte>
    requires mask == 0 || mask == 128
    requires length < 0x1_0000_0000_0000_0000
  {
    if length < 126 then [mask + length]
    else if length <= 0xffff then [mask + 126] + Octets(length, 2)
    else [mask + 127] + Octets(length, 8)
  }

  ghost predicate Sendable(f: Frame) {
    f.opcode < 16 && |f.payload| < 0x1_0000_0000_0000_0000
  }

  /** A frame as RFC 6455 section 5.2 lays it out. */
  function Wire(f: Frame): seq<Byte>
    requires Sendable(f)
  {
    [(if f.fin then 128 else 0) + f.opcode]
    + match f.key
      case None => LengthOctets(0, |f.payload|) + f.payload
      case Some(key) => LengthOctets(128, |f.payload|) + key + Masked(f.payload, key)
  }

  /** _pack_message: None where it raises. */
  function PackMessage(version: int, message: Message): Option<seq<Byte>> {
    if version == 13 then
      var opcode := if message.Text? then 1 else 2;
      var length := |message.payload|;
      if length < 126 then Some([128 + opcode, length] + message.payload)
      else if length <= 0xffff then Some([128 + opcode, 126] + Octets(length, 2) + message.payload)
      else if length <= 0xffff_ffff_ffff_ffff then Some([128 + opcode, 127] + Octets(length, 8) + message.payload)
      else None
    else None
  }

  /** The frame that carries a message whole. */
  function FrameOf(message: Message, key: Option<Key>): Frame {
    Frame(true, if message.Text? then 1 else 2, key, message.payload)
  }

  lemma Packed(version: int, message: Message)
    ensures PackMessage(version, message).Some? <==> version == 13 && |message.payload| < 0x1_0000_0000_0000_0000
    ensures PackMessage(version, message).Some? ==> PackMessage(version, message).value == Wire(FrameOf(message, None))
  {
    var f := FrameOf(message, None);
    if PackMessage(version, message).Some? {
      var head := [128 + f.opcode] + LengthOctets(0, |f.payload|);
      assert Wire(f) == head + f.payload;
    }
  }

  // ---- the reader ----

  /** The payload length and where the key or the payload begins. */
  function ReadLength(buf: seq<Byte>): Option<Length> {
    if |buf| < 2 then None
    else
      var length := buf[1] % 128;
      if length == 126 then if |buf| < 4 then None else Some(Length(Number(buf[2..4]), 4))
      else if length == 127 then if |buf| < 10 then None else Some(Length(Number(buf[2..10]), 10))
      else Some(Length(length, 2))
  }

  /** The four octets of a masking key. */
  function KeyAt(buf: seq<Byte>, idx: nat): Key
    requires idx + 4 <= |buf|
  {
    buf[idx..idx + 4]
  }

  /** One pass of the loop in _parse_messages up to the dispatch on the opcode. */
  function ReadFrame(buf: seq<Byte>): (r: Option<Read>)
    ensures r.Some? ==> 2 <= r.value.size <= |buf|
  {
    match ReadLength(buf)
    case None => None
    case Some(Length(length, idx)) =>
      if buf[1] >= 128 then
        if |buf| < idx + 4 + length then None
        else
          var key := KeyAt(buf, idx);
          Some(Read(Frame(buf[0] >= 128, buf[0] % 16, Some(key), Masked(buf[idx + 4..idx + 4 + length], key)),
              idx + 4 + length))
      else if |buf| < idx + length then None
      else Some(Read(Frame(buf[0] >= 128, buf[0] % 16, None, buf[idx..idx + length]), idx + length))
  }

  /** What has arrived later does not change a frame. */
  lemma ReadStable(buf: seq<Byte>, more: seq<Byte>)
    requires ReadFrame(buf).Some?
    ensures ReadFrame(buf + more) == ReadFrame(buf)
  {
    var all := buf + more;
    if |buf| >= 4 { SameSlice(buf, more, 2, 4); }
    if |buf| >= 10 { SameSlice(buf, more, 2, 10); }
    var l := ReadLength(buf).value;
    assert ReadLength(all) == Some(l);
    if buf[1] >= 128 {
      SameSlice(buf, more, l.idx, l.idx + 4);
      SameSlice(buf, more, l.idx + 4, l.idx + 4 + l.length);
    } else {
      SameSlice(buf, more, l.idx, l.idx + l.length);
    }
  }

  lemma SameSlice(buf: seq<Byte>, more: seq<Byte>, i: nat, j: nat)
    requires i <= j <= |buf|
    ensures (buf + more)[i..j] == buf[i..j]
  {}

  lemma ReadLengthWire(f: Frame)
    requires Sendable(f)
    ensures |Wire(f)| >= 2 && Wire(f)[0] == (if f.fin then 128 else 0) + f.opcode
    ensures Wire(f)[1] >= 128 <==> f.key.Some?
    ensures ReadLength(Wire(f)) == Some(Length(|f.payload|, 1 + |LengthOctets(0, |f.payload|)|))
    ensures |Wire(f)| == 1 + |LengthOctets(0, |f.payload|)| + (if f.key.Some? then 4 else 0) + |f.payload|
  {
    hide ReadLength, LengthOctets, Masked;
    var n, mask := |f.payload|, if f.key.Some? then 128 else 0;
    var rest := if f.key.Some? then f.key.value + Masked(f.payload, f.key.value) else f.payload;
    var first: Byte := (if f.fin then 128 else 0) + f.opcode;
    assert Wire(f) == [first] + LengthOctets(mask, n) + rest;
    ReadLengthOctets(first, mask, n, rest);
  }

  lemma ReadLengthOctets(first: Byte, mask: nat, n: nat, rest: seq<Byte>)
    requires (mask == 0 || mask == 128) && n < 0x1_0000_0000_0000_0000
    ensures var w := [first] + LengthOctets(mask, n) + rest;
      && |LengthOctets(mask, n)| == |LengthOctets(0, n)| > 0 && w[0] == first && (w[1] >= 128 <==> mask == 128)
      && ReadLength(w) == Some(Length(n, 1 + |LengthOctets(0, n)|))
  {
    hide Octets, Number;
    var w := [first] + LengthOctets(mask, n) + rest;
    Powers();
    if 126 <= n <= 0xffff {
      NumberOctets(n, 2);
      assert w[2..4] == Octets(n, 2);
    } else if 0xffff < n {
      NumberOctets(n, 8);
      assert w[2..10] == Octets(n, 8);
    }
  }

  /** Reader after printer, masked or not, in all three length forms. */
  lemma ReadWire(f: Frame)
    requires Sendable(f)
    ensures ReadFrame(Wire(f)) == Some(Read(f, |Wire(f)|))
  {
    ReadLengthWire(f);
    var w, idx := Wire(f), 1 + |LengthOctets(0, |f.payload|)|;
    if f.key.Some? {
      MaskedTwice(f.payload, f.key.value);
      assert w[idx..idx + 4] == f.key.value;
      assert w[idx + 4..idx + 4 + |f.payload|] == Masked(f.payload, f.key.value);
    } else {
      assert w[idx..idx + |f.payload|] == f.payload;
    }
  }

  /** Nothing short of a whole frame is read as one. */
  lemma ReadShort(f: Frame, n: nat)
    requires Sendable(f) && n < |Wire(f)|
    ensures ReadFrame(Wire(f)[..n]).None?
  {
    if ReadFrame(Wire(f)[..n]).Some? {
      assert Wire(f) == Wire(f)[..n] + Wire(f)[n..];
      ReadStable(Wire(f)[..n], Wire(f)[n..]);
      ReadWire(f);
    }
  }

  // ---- messages out of frames ----

  /** How _parse_messages ends: out of frames with a message under way or none, at a close frame, or
      with an exception. */
  datatype End = More(msg: Option<Message>) | Closed | Failed

  datatype Parsed = Parsed(msgs: seq<Option<Message>>, rest: seq<Byte>, end: End)

  datatype Taken = Keep(msg: Option<Message>) | Stop | Fail

  /** The dispatch on the opcode.  Continuing nothing is a TypeError, an unknown opcode a ValueError, text that is
      not UTF-8, each frame taken for itself, a UnicodeDecodeError. */
  function Take(msg: Option<Message>, f: Frame): Taken {
    if f.opcode == 0 then
      match msg
      case None => Fail
      case Some(m) =>
        if m.Text? && !WellFormed(f.payload) then Fail else Keep(Some(m.(payload := m.payload + f.payload)))
    else if f.opcode == 1 then if WellFormed(f.payload) then Keep(Some(Text(f.payload))) else Fail
    else if f.opcode == 2 then Keep(Some(Binary(f.payload)))
    else if f.opcode == 8 then Stop
    else if f.opcode == 9 || f.opcode == 10 then Keep(msg)
    else Fail
  }

  /** The loop of _parse_messages with msg under way. */
  function Parse(buf: seq<Byte>, msg: Option<Message>): Parsed
    decreases |buf|
  {
    match ReadFrame(buf)
    case None => Parsed([], buf, More(msg))
    case Some(Read(f, size)) =>
      match Take(msg, f)
      case Stop => Parsed([], buf, Closed)
      case Fail => Parsed([], buf, Failed)
      case Keep(m) => Before(if f.fin then [m] else [], Parse(buf[size..], if f.fin then None else m))
  }

  function Before(msgs: seq<Option<Message>>, p: Parsed): Parsed {
    p.(msgs := msgs + p.msgs)
  }

  /** One pass of the loop, out being the messages before it. */
  lemma ParseOne(out: seq<Option<Message>>, buf: seq<Byte>, msg: Option<Message>)
    ensures var p := Parse(buf, msg);
      match ReadFrame(buf)
      case None => p == Parsed([], buf, More(msg))
      case Some(Read(f, size)) =>
        match Take(msg, f)
        case Stop => p == Parsed([], buf, Closed)
        case Fail => p == Parsed([], buf, Failed)
        case Keep(m) =>
          && p == Before(if f.fin then [m] else [], Parse(buf[size..], if f.fin then None else m))
          && Before(out, p) == Before(out + (if f.fin then [m] else []), Parse(buf[size..], if f.fin then None else m))
  {
    if ReadFrame(buf).Some? {
      var r := ReadFrame(buf).value;
      var t := Take(msg, r.frame);
      if t.Keep? {
        var q := Parse(buf[r.size..], if r.frame.fin then None else t.msg);
        var one := if r.frame.fin then [t.msg] else [];
        assert out + (one + q.msgs) == (out + one) + q.msgs;
      }
    }
  }

  /** Parsing a stream in two parts, were the message under way carried over. */
  lemma {:induction false} ParseSplit(a: seq<Byte>, b: seq<Byte>, m: Option<Message>)
    ensures var p := Parse(a, m);
      Parse(a + b, m) == if p.end.More? then Before(p.msgs, Parse(p.rest + b, p.end.msg))
        else Parsed(p.msgs, p.rest + b, p.end)
    decreases |a|
  {
    hide ReadFrame, Take, Parse;
    ParseOne([], a, m);
    ParseOne([], a + b, m);
    if ReadFrame(a).Some? {
      ReadStable(a, b);
      var r := ReadFrame(a).value;
      assert (a + b)[r.size..] == a[r.size..] + b;
      var t := Take(m, r.frame);
      if t.Keep? {
        var next := if r.frame.fin then None else t.msg;
        ParseSplit(a[r.size..], b, next);
        var p := Parse(a[r.size..], next);
        if p.end.More? {
          var out, q := if r.frame.fin then [t.msg] else [], Parse(p.rest + b, p.end.msg);
          assert out + (p.msgs + q.msgs) == (out + p.msgs) + q.msgs;
        }
      }
    }
  }

  lemma {:induction false} NoFrameLeft(buf: seq<Byte>, m: Option<Message>)
    ensures Parse(buf, m).end.More? ==> ReadFrame(Parse(buf, m).rest).None?
    decreases |buf|
  {
    if ReadFrame(buf).Some? {
      var r := ReadFrame(buf).value;
      var t := Take(m, r.frame);
      if t.Keep? { NoFrameLeft(buf[r.size..], if r.frame.fin then None else t.msg); }
    }
  }

  /** Some frame continues or delivers a message begun by an earlier frame. */
  predicate Spread(s: seq<Byte>, m: Option<Message>)
    decreases |s|
  {
    match ReadFrame(s)
    case None => false
    case Some(Read(f, size)) =>
      if m.Some? && UsesPending(f) then true
      else
        match Take(m, f)
        case Keep(next) => Spread(s[size..], if f.fin then None else next)
        case _ => false
  }

  predicate UsesPending(f: Frame) {
    f.opcode == 0 || (f.fin && (f.opcode == 9 || f.opcode == 10))
  }

  /** The same messages, the same octets left over, the same kind of end. */
  predicate Same(p: Parsed, q: Parsed) {
    p.msgs == q.msgs && p.rest == q.rest && (p.end.Closed? <==> q.end.Closed?) && (p.end.Failed? <==> q.end.Failed?)
  }

  /** Forgetting the message under way does no harm when nothing uses it. */
  lemma {:induction false} Forgotten(s: seq<Byte>, m: Option<Message>)
    requires !Spread(s, m)
    ensures Same(Parse(s, m), Parse(s, None)) && !Spread(s, None)
    decreases |s|
  {
    hide ReadFrame, WellFormed;
    if ReadFrame(s).Some? {
      var r := ReadFrame(s).value;
      if m.Some? && (r.frame.opcode == 9 || r.frame.opcode == 10) { Forgotten(s[r.size..], m); }
    }
  }

  lemma {:induction false} SpreadSplit(a: seq<Byte>, b: seq<Byte>, m: Option<Message>)
    requires !Spread(a + b, m)
    ensures Parse(a, m).end.More? ==> !Spread(Parse(a, m).rest + b, Parse(a, m).end.msg)
    decreases |a|
  {
    hide ReadFrame, WellFormed;
    if ReadFrame(a).Some? {
      ReadStable(a, b);
      var r := ReadFrame(a).value;
      assert (a + b)[r.size..] == a[r.size..] + b;
      var t := Take(m, r.frame);
      if t.Keep? { SpreadSplit(a[r.size..], b, if r.frame.fin then None else t.msg); }
    }
  }

  // ---- pieces ----

  /** What all the calls of wait get out of the pieces, buf being left over from earlier ones.  A
      piece that raises loses the messages it completed. */
  function Deliver(buf: seq<Byte>, pieces: seq<seq<Byte>>): Parsed
    decreases |pieces|
  {
    if pieces == [] then Parsed([], buf, More(None))
    else
      var p := Parse(buf + pieces[0], None);
      if p.end.More? then Before(p.msgs, Deliver(p.rest, pieces[1..]))
      else Parsed(if p.end.Closed? then p.msgs else [], p.rest + Flatten(pieces[1..]), p.end)
  }

  lemma {:induction false} CutsOk(buf: seq<Byte>, pieces: seq<seq<Byte>>)
    requires ReadFrame(buf).None? && !Spread(buf + Flatten(pieces), None)
    requires !Parse(buf + Flatten(pieces), None).end.Failed?
    ensures Same(Deliver(buf, pieces), Parse(buf + Flatten(pieces), None))
    decreases |pieces|
  {
    if pieces == [] {
      assert buf + Flatten(pieces) == buf;
    } else {
      var a, b := buf + pieces[0], Flatten(pieces[1..]);
      FlattenHead(pieces);
      assert a + b == buf + Flatten(pieces);
      ParseSplit(a, b, None);
      var p := Parse(a, None);
      if p.end.More? {
        SpreadSplit(a, b, None);
        Forgotten(p.rest + b, p.end.msg);
        NoFrameLeft(a, None);
        CutsOk(p.rest, pieces[1..]);
      }
    }
  }

  /** Where a frame uses what an earlier one began. */
  lemma {:induction false} FindSpread(s: seq<Byte>, m: Option<Message>) returns (n: nat)
    requires Spread(s, m)
    ensures n <= |s| && (m.None? ==> n > 0)
    ensures Parse(s[..n], m).end.More? && Parse(s[..n], m).rest == [] && Parse(s[..n], m).end.msg.Some?
    ensures ReadFrame(s[n..]).Some? && UsesPending(ReadFrame(s[n..]).value.frame)
    decreases |s|
  {
    var r := ReadFrame(s).value;
    if m.Some? && UsesPending(r.frame) {
      n := 0;
      assert s[0..] == s;
    } else {
      var t := Take(m, r.frame);
      var k := FindSpread(s[r.size..], if r.frame.fin then None else t.msg);
      n := r.size + k;
      ReadExact(s, n);
      assert s[..n][r.size..] == s[r.size..][..k];
      assert s[n..] == s[r.size..][k..];
    }
  }

  lemma ReadExact(s: seq<Byte>, n: nat)
    requires ReadFrame(s).Some? && ReadFrame(s).value.size <= n <= |s|
    ensures ReadFrame(s[..n]) == ReadFrame(s)
  {
    var a := s[..n];
    assert a + s[n..] == s;
    if ReadFrame(a).Some? { ReadStable(a, s[n..]); }
    var l := ReadLength(s).value;
    if |a| >= 4 { assert a[2..4] == s[2..4]; }
    if |a| >= 10 { assert a[2..10] == s[2..10]; }
    assert ReadLength(a) == Some(l);
  }

  ghost predicate AnyCut(s: seq<Byte>) {
    forall pieces :: Flatten(pieces) == s && [] !in pieces ==> Same(Deliver([], pieces), Parse(s, None))
  }

  lemma BadCut(s: seq<Byte>) returns (pieces: seq<seq<Byte>>)
    requires Spread(s, None) && !Parse(s, None).end.Failed?
    ensures Flatten(pieces) == s && [] !in pieces && !Same(Deliver([], pieces), Parse(s, None))
  {
    hide Parse, Deliver, Flatten, Spread, ReadFrame, UsesPending;
    var n := FindSpread(s, None);
    var a, b := s[..n], s[n..];
    assert s == a + b;
    var tail: seq<seq<Byte>> := [b];
    pieces := [a] + tail;
    TwoPieces(a, b, tail);
    ParseSplit(a, b, None);
    var p := Parse(a, None);
    assert p.rest + b == b;
    UseShows(b, p.end.msg, tail);
    assert ReadFrame(b).value.size <= |b|;
    ghost var d, q := Deliver([], tail), Parse(b, p.end.msg);
    if |d.msgs| > 0 && |q.msgs| > 0 {
      assert (p.msgs + d.msgs)[|p.msgs|] == d.msgs[0] && (p.msgs + q.msgs)[|p.msgs|] == q.msgs[0];
    }
  }

  lemma TwoPieces(a: seq<Byte>, b: seq<Byte>, tail: seq<seq<Byte>>)
    requires tail == [b] && Parse(a, None).end.More? && Parse(a, None).rest == []
    ensures Flatten([a] + tail) == a + b
    ensures Deliver([], [a] + tail) == Before(Parse(a, None).msgs, Deliver([], tail))
  {
    var none: seq<Byte> := [];
    assert none + a == a;
    assert ([a] + tail)[1..] == tail && tail[1..] == [];
    FlattenOne(b);
    FlattenHead([a] + tail);
  }

  /** A frame that uses the message under way fails, or delivers something else, without it. */
  lemma UseShows(b: seq<Byte>, m: Option<Message>, tail: seq<seq<Byte>>)
    requires tail == [b] && m.Some? && ReadFrame(b).Some? && UsesPending(ReadFrame(b).value.frame)
    requires !Parse(b, m).end.Failed?
    ensures Deliver([], tail).end.Failed? || (|Deliver([], tail).msgs| > 0 && |Parse(b, m).msgs| > 0 && Deliver([],
        tail).msgs[0] != Parse(b, m).msgs[0])
  {
    var none: seq<Byte> := [];
    assert none + b == b && tail[1..] == [];
    var q := Parse(b, None);
    assert Deliver(q.rest, tail[1..]).msgs == [];
    assert q.end.More? ==> Deliver(none, tail).msgs == q.msgs;
  }

  /** The pieces the stream arrives in do not matter exactly when no frame continues, or delivers, a
      message begun by an earlier one: the message under way does not outlive a call of _parse_messages. */
  lemma CutsDoNotMatter(s: seq<Byte>)
    requires !Parse(s, None).end.Failed?
    ensures AnyCut(s) <==> !Spread(s, None)
  {
    if Spread(s, None) {
      var pieces := BadCut(s);
    } else {
      forall pieces | Flatten(pieces) == s && [] !in pieces ensures Same(Deliver([], pieces), Parse(s, None)) {
        var none: seq<Byte> := [];
        assert none + s == s;
        CutsOk([], pieces);
      }
    }
  }

  // ---- wait ----

  /** A connection: what is read but not parsed, what is parsed but not handed out, and the pieces recv
      has yet to return. */
  datatype Conn = Conn(buf: seq<Byte>, msgs: seq<Option<Message>>, closed: bool, pieces: seq<seq<Byte>>)

  /** What a call of wait comes to; the value is None at the end of the stream, and for a ping. */
  datatype Outcome = Outcome(value: Option<Message>, raised: bool, conn: Conn)

  /** wait. */
  function Wait(c: Conn): Outcome
    decreases |c.pieces|
  {
    if c.msgs != [] then Outcome(c.msgs[0], false, c.(msgs := c.msgs[1..]))
    else if c.closed || c.pieces == [] then Outcome(None, false, c)
    else
      var p := Parse(c.buf + c.pieces[0], None);
      if p.end.Failed? then Outcome(None, true, c.(buf := p.rest, pieces := c.pieces[1..]))
      else Wait(Conn(p.rest, p.msgs, p.end.Closed?, c.pieces[1..]))
  }

  /** What the connection has still to hand out. */
  function Owed(c: Conn): Parsed {
    if c.closed then Parsed(c.msgs, c.buf + Flatten(c.pieces), Closed) else Before(c.msgs, Deliver(c.buf, c.pieces))
  }

  /** Each wait hands out the first message owed, and nothing is lost or added. */
  lemma {:induction false} WaitOwed(c: Conn)
    requires !Owed(c).end.Failed?
    ensures var o := Wait(c);
      && !o.raised && !Owed(o.conn).end.Failed?
      && (if Owed(c).msgs == [] then o.value == None && Owed(o.conn).msgs == []
          else o.value == Owed(c).msgs[0] && Owed(o.conn).msgs == Owed(c).msgs[1..])
    decreases |c.pieces|
  {
    hide Parse, Flatten;
    if c.msgs == [] && !c.closed && c.pieces != [] {
      var p := Parse(c.buf + c.pieces[0], None);
      WaitOwed(Conn(p.rest, p.msgs, p.end.Closed?, c.pieces[1..]));
    }
  }

  /** The values of n successive waits. */
  function Waits(c: Conn, n: nat): (r: seq<Option<Message>>)
    ensures |r| == n
    decreases n
  {
    if n == 0 then [] else [Wait(c).value] + Waits(Wait(c).conn, n - 1)
  }

  function Nones(n: nat): (r: seq<Option<Message>>)
    ensures |r| == n
  {
    seq(n, _ => None)
  }

  lemma OneMore(n: nat)
    requires n > 0
    ensures Nones(n) == [None] + Nones(n - 1)
  {}

  lemma {:induction false} WaitsOwed(c: Conn, more: nat)
    requires !Owed(c).end.Failed?
    ensures Waits(c, |Owed(c).msgs| + more) == Owed(c).msgs + Nones(more)
    decreases |Owed(c).msgs| + more
  {
    hide Owed, Wait, Nones;
    WaitOwed(c);
    var next, ms := Wait(c).conn, Owed(c).msgs;
    if ms != [] {
      WaitsOwed(next, more);
      assert ms == [ms[0]] + ms[1..];
      assert ([ms[0]] + ms[1..]) + Nones(more) == [ms[0]] + (ms[1..] + Nones(more));
    } else if more > 0 {
      WaitsOwed(next, more - 1);
      OneMore(more);
    } else {
      assert |Nones(0)| == 0;
    }
  }

  function WireAll(fs: seq<Frame>): seq<Byte>
    requires forall f :: f in fs ==> Sendable(f)
  {
    if fs == [] then [] else Wire(fs[0]) + WireAll(fs[1..])
  }

  /** The frames of a list of messages, each under a key or none. */
  function Frames(messages: seq<Message>, keys: seq<Option<Key>>): (fs: seq<Frame>)
    requires |keys| == |messages|
    ensures |fs| == |messages|
  {
    seq(|messages|, i requires 0 <= i < |messages| => FrameOf(messages[i], keys[i]))
  }

  ghost predicate Short(messages: seq<Message>) {
    forall m :: m in messages ==> |m.payload| < 0x1_0000_0000_0000_0000 && IsMessage(m)
  }

  function Present(messages: seq<Message>): (r: seq<Option<Message>>)
    ensures |r| == |messages|
  {
    seq(|messages|, i requires 0 <= i < |messages| => Some(messages[i]))
  }

  // ---- whole frames: messages, pings and pongs ----

  /** A frame that is complete in itself: a text, binary data, a ping or a pong. */
  predicate IsWhole(f: Frame) {
    && f.fin && |f.payload| < 0x1_0000_0000_0000_0000
    && ((f.opcode == 1 && WellFormed(f.payload)) || f.opcode == 2 || f.opcode == 9 || f.opcode == 10)
  }

  ghost predicate AreWhole(fs: seq<Frame>) {
    forall f :: f in fs ==> IsWhole(f) && Sendable(f)
  }

  /** What wait returns for it: the message, and None for a ping or a pong. */
  function ValueOf(f: Frame): Option<Message> {
    if f.opcode == 1 then Some(Text(f.payload)) else if f.opcode == 2 then Some(Binary(f.payload)) else None
  }

  function Values(fs: seq<Frame>): (r: seq<Option<Message>>)
    ensures |r| == |fs|
  {
    if fs == [] then [] else [ValueOf(fs[0])] + Values(fs[1..])
  }

  lemma ParseWhole(f: Frame, rest: seq<Byte>)
    requires IsWhole(f) && Sendable(f)
    ensures Parse(Wire(f) + rest, None) == Before([ValueOf(f)], Parse(rest, None))
    ensures Spread(Wire(f) + rest, None) <==> Spread(rest, None)
  {
    hide ReadFrame, Wire, Parse, WellFormed;
    ReadWire(f);
    ReadStable(Wire(f), rest);
    ParseOne([], Wire(f) + rest, None);
    assert (Wire(f) + rest)[|Wire(f)|..] == rest;
  }

  lemma {:induction false} ParseWholes(fs: seq<Frame>, rest: seq<Byte>)
    requires AreWhole(fs)
    ensures Parse(WireAll(fs) + rest, None) == Before(Values(fs), Parse(rest, None))
    ensures Spread(WireAll(fs) + rest, None) <==> Spread(rest, None)
    decreases |fs|
  {
    hide Parse, Spread, Wire, ValueOf;
    if fs == [] {
      assert WireAll(fs) + rest == rest && [] + Parse(rest, None).msgs == Parse(rest, None).msgs;
    } else {
      var more := WireAll(fs[1..]) + rest;
      assert WireAll(fs) + rest == Wire(fs[0]) + more;
      assert fs[0] in fs;
      ParseWhole(fs[0], more);
      ParseWholes(fs[1..], rest);
      var q := Parse(rest, None);
      assert [ValueOf(fs[0])] + (Values(fs[1..]) + q.msgs) == Values(fs) + q.msgs;
    }
  }

  lemma {:induction false} FramesWhole(messages: seq<Message>, keys: seq<Option<Key>>)
    requires |keys| == |messages| && Short(messages)
    ensures AreWhole(Frames(messages, keys)) && Values(Frames(messages, keys)) == Present(messages)
    decreases |messages|
  {
    hide WellFormed;
    if messages != [] {
      assert messages[0] in messages;
      FramesHead(messages, keys);
      FramesWhole(messages[1..], keys[1..]);
    }
  }

  lemma ParseFrames(messages: seq<Message>, keys: seq<Option<Key>>)
    requires |keys| == |messages| && Short(messages)
    ensures Parse(WireAll(Frames(messages, keys)), None) == Parsed(Present(messages), [], More(None))
    ensures !Spread(WireAll(Frames(messages, keys)), None)
  {
    hide WireAll, Frames, Values, Present, IsWhole;
    var fs := Frames(messages, keys);
    FramesWhole(messages, keys);
    ParseWholes(fs, []);
    NoFrame();
    assert WireAll(fs) + [] == WireAll(fs) && Values(fs) + [] == Values(fs);
  }

  lemma FramesHead(messages: seq<Message>, keys: seq<Option<Key>>)
    requires 0 < |messages| == |keys|
    ensures Frames(messages, keys)[0] == FrameOf(messages[0], keys[0])
    ensures Frames(messages, keys)[1..] == Frames(messages[1..], keys[1..])
    ensures Present(messages) == [Some(messages[0])] + Present(messages[1..])
  {}

  /** Messages sent as whole frames, masked or not, arrive one by one and in order, however the stream
      is cut; then wait returns None. */
  lemma RoundTrip(messages: seq<Message>, keys: seq<Option<Key>>, pieces: seq<seq<Byte>>, more: nat)
    requires |keys| == |messages| && Short(messages)
    requires Flatten(pieces) == WireAll(Frames(messages, keys))
    ensures Waits(Conn([], [], false, pieces), |messages| + more) == Present(messages) + Nones(more)
  {
    hide Deliver, Parse, Spread, WireAll, Flatten, Waits, Frames, Present, Nones, Wait;
    var none: seq<Byte>, c := [], Conn([], [], false, pieces);
    ParseFrames(messages, keys);
    assert none + Flatten(pieces) == Flatten(pieces);
    NoFrame();
    CutsOk(none, pieces);
    assert c.msgs + Deliver(none, pieces).msgs == Deliver(none, pieces).msgs;
    assert Owed(c).msgs == Present(messages);
    WaitsOwed(c, more);
  }

  lemma NoFrame()
    ensures ReadFrame([]).None?
  {}

  /** None of n successive waits raises. */
  predicate Calm(c: Conn, n: nat)
    decreases n
  {
    n == 0 || (!Wait(c).raised && Calm(Wait(c).conn, n - 1))
  }

  /** The connection after them. */
  function AfterWaits(c: Conn, n: nat): Conn
    decreases n
  {
    if n == 0 then c else AfterWaits(Wait(c).conn, n - 1)
  }

  lemma {:induction false} CalmOwed(c: Conn, n: nat)
    requires !Owed(c).end.Failed?
    ensures Calm(c, n)
    decreases n
  {
    hide Owed, Wait;
    if n > 0 {
      WaitOwed(c);
      CalmOwed(Wait(c).conn, n - 1);
    }
  }

  /** A close frame ends the stream: whatever whole frames come before it, under whatever keys, whatever comes behind
      it, and however all that is cut, successive waits return the values of those frames, then None for ever,
      and none of them raises. */
  lemma CloseEnds(fs: seq<Frame>, f: Frame, tail: seq<Byte>, pieces: seq<seq<Byte>>, more: nat)
    requires AreWhole(fs) && Sendable(f) && f.opcode == 8
    requires Flatten(pieces) == WireAll(fs) + (Wire(f) + tail)
    ensures Waits(Conn([], [], false, pieces), |fs| + more) == Values(fs) + Nones(more)
    ensures Calm(Conn([], [], false, pieces), |fs| + more)
  {
    hide Deliver, Parse, WireAll, Wire, Flatten, Waits, Nones, Wait, Calm, ReadFrame, Values, AreWhole;
    var none: seq<Byte>, c := [], Conn([], [], false, pieces);
    var s := Wire(f) + tail;
    ReadWire(f);
    ReadStable(Wire(f), tail);
    ParseOne([], s, None);
    ParseWholes(fs, s);
    assert none + Flatten(pieces) == Flatten(pieces);
    NoFrame();
    CutsOk(none, pieces);
    assert Values(fs) + [] == Values(fs) && c.msgs + Deliver(none, pieces).msgs == Deliver(none, pieces).msgs;
    assert Owed(c).msgs == Values(fs);
    WaitsOwed(c, more);
    CalmOwed(c, |fs| + more);
  }

  /** A frame that cannot begin anything: an opcode RFC 6455 leaves open, a continuation, or text that is not UTF-8. */
  predicate IsBad(f: Frame) {
    3 <= f.opcode < 8 || 11 <= f.opcode < 16 || f.opcode == 0 || (f.opcode == 1 && !WellFormed(f.payload))
  }

  /** The stream that fails fails in any cut, after handing out some of the messages before. */
  lemma {:induction false} CutsFail(buf: seq<Byte>, pieces: seq<seq<Byte>>)
    requires ReadFrame(buf).None? && !Spread(buf + Flatten(pieces), None)
    requires Parse(buf + Flatten(pieces), None).end.Failed?
    ensures Deliver(buf, pieces).end.Failed? && Deliver(buf, pieces).msgs <= Parse(buf + Flatten(pieces), None).msgs
    decreases |pieces|
  {
    hide ReadFrame, Spread;
    assert pieces == [] ==> buf + Flatten(pieces) == buf;
    if pieces != [] {
      var a, b := buf + pieces[0], Flatten(pieces[1..]);
      FlattenHead(pieces);
      assert a + b == buf + Flatten(pieces);
      ParseSplit(a, b, None);
      var p := Parse(a, None);
      if p.end.More? {
        SpreadSplit(a, b, None);
        Forgotten(p.rest + b, p.end.msg);
        NoFrameLeft(a, None);
        CutsFail(p.rest, pieces[1..]);
      }
    }
  }

  lemma {:induction false} WaitFails(c: Conn)
    requires Owed(c).end.Failed?
    ensures var o := Wait(c);
      && (o.raised <==> Owed(c).msgs == [])
      && (!o.raised ==> o.value == Owed(c).msgs[0] && Owed(o.conn).msgs == Owed(c).msgs[1..]
                        && Owed(o.conn).end.Failed?)
    decreases |c.pieces|
  {
    hide Parse, Flatten;
    if c.msgs == [] && !c.closed && c.pieces != [] {
      var p := Parse(c.buf + c.pieces[0], None);
      if !p.end.Failed? { WaitFails(Conn(p.rest, p.msgs, p.end.Closed?, c.pieces[1..])); }
    }
  }

  lemma {:induction false} WaitsFail(c: Conn)
    requires Owed(c).end.Failed?
    ensures var n := |Owed(c).msgs|;
      Waits(c, n) == Owed(c).msgs && Calm(c, n) && Wait(AfterWaits(c, n)).raised
    decreases |Owed(c).msgs|
  {
    hide Owed, Wait;
    WaitFails(c);
    if Owed(c).msgs != [] { WaitsFail(Wait(c).conn); }
  }

  /** Behind whatever whole frames, such a frame makes a wait raise, however the stream is cut and whatever comes
      behind; before that, waits return the first of their values.  Those completed in the same piece are lost. */
  lemma BadFrameRaises(fs: seq<Frame>, f: Frame, tail: seq<Byte>, pieces: seq<seq<Byte>>) returns (n: nat)
    requires AreWhole(fs) && Sendable(f) && IsBad(f)
    requires Flatten(pieces) == WireAll(fs) + (Wire(f) + tail)
    ensures var c := Conn([], [], false, pieces);
      && n <= |fs| && Waits(c, n) == Values(fs)[..n] && Calm(c, n) && Wait(AfterWaits(c, n)).raised
  {
    hide Deliver, Parse, WireAll, Wire, Flatten, Waits, Wait, Calm, ReadFrame, Values, AreWhole, AfterWaits, WellFormed;
    var none: seq<Byte>, c := [], Conn([], [], false, pieces);
    var s := Wire(f) + tail;
    ReadWire(f);
    ReadStable(Wire(f), tail);
    ParseOne([], s, None);
    ParseWholes(fs, s);
    assert none + Flatten(pieces) == Flatten(pieces);
    NoFrame();
    CutsFail(none, pieces);
    assert Values(fs) + [] == Values(fs) && c.msgs + Deliver(none, pieces).msgs == Deliver(none, pieces).msgs;
    n := |Owed(c).msgs|;
    WaitsFail(c);
  }

  // ---- frames as octets ----

  /** The examples of section 5.7 of RFC 6455: "Hello" unmasked and masked, and a length in two octets. */
  lemma Examples(data: seq<Byte>)
    requires |data| == 256
    ensures var hello: seq<Byte>, key: Key := [0x48, 0x65, 0x6c, 0x6c, 0x6f], [0x37, 0xfa, 0x21, 0x3d];
      && ReadFrame([0x81, 0x05] + hello) == Some(Read(Frame(true, 1, None, hello), 7))
      && ReadFrame([0x81, 0x85, 0x37, 0xfa, 0x21, 0x3d, 0x7f, 0x9f, 0x4d, 0x51, 0x58])
         == Some(Read(Frame(true, 1, Some(key), hello), 11))
      && ReadFrame([0x82, 0x7e, 0x01, 0x00] + data) == Some(Read(Frame(true, 2, None, data), 260))
  {
    var hello: seq<Byte> := [0x48, 0x65, 0x6c, 0x6c, 0x6f];
    var a: seq<Byte> := [0x81, 0x05] + hello;
    assert a[2..7] == hello;
    var b: seq<Byte> := [0x81, 0x85, 0x37, 0xfa, 0x21, 0x3d, 0x7f, 0x9f, 0x4d, 0x51, 0x58];
    var key: Key := [0x37, 0xfa, 0x21, 0x3d];
    assert KeyAt(b, 2) == key;
    Hello(key);
    assert b[6..11] == [0x7f, 0x9f, 0x4d, 0x51, 0x58];
    var d: seq<Byte> := [0x82, 0x7e, 0x01, 0x00] + data;
    assert d[2..4] == [0x01, 0x00] && d[4..260] == data;
    assert Number([0x01, 0x00]) == 256 by {
      assert [0x01, 0x00][..1] == [0x01] && [0x01][..0] == [];
      assert Number([0x01]) == 1;
    }
  }

  lemma Hello(key: Key)
    requires key == [0x37, 0xfa, 0x21, 0x3d]
    ensures Masked([0x7f, 0x9f, 0x4d, 0x51, 0x58], key) == [0x48, 0x65, 0x6c, 0x6c, 0x6f]
  {
    hide XorBits;
    Nibble();
    XorStep(0xf, 0x6); XorStep(0x1f, 0xd); XorStep(0x3f, 0x1b); XorStep(0x7f, 0x37);
    XorStep(0x13, 0x1f); XorStep(0x27, 0x3e); XorStep(0x4f, 0x7d); XorStep(0x9f, 0xfa);
    XorStep(0x9, 0x4); XorStep(0x13, 0x8); XorStep(0x26, 0x10); XorStep(0x4d, 0x21);
    XorStep(0xa, 0x7); XorStep(0x14, 0xf); XorStep(0x28, 0x1e); XorStep(0x51, 0x3d);
    XorStep(0xb, 0x6); XorStep(0x16, 0xd); XorStep(0x2c, 0x1b); XorStep(0x58, 0x37);
  }

  lemma Nibble()
    ensures XorBits(7, 3) == 4 && XorBits(9, 15) == 6 && XorBits(4, 2) == 6 && XorBits(5, 3) == 6
  {}

  /** What a server sends with _pack_message, message after message, a client reads back. */
  lemma {:induction false} PackedStream(messages: seq<Message>)
    requires Short(messages)
    ensures Sent(messages) == WireAll(Frames(messages, seq(|messages|, _ => None)))
    decreases |messages|
  {
    if messages != [] {
      Packed(13, messages[0]);
      PackedStream(messages[1..]);
      var fs := Frames(messages, seq(|messages|, _ => None));
      assert fs[1..] == Frames(messages[1..], seq(|messages[1..]|, _ => None));
    }
  }

  /** The octets of successive sends. */
  function Sent(messages: seq<Message>): seq<Byte> {
    if messages == [] then []
    else match PackMessage(13, messages[0])
      case Some(packed) => packed + Sent(messages[1..])
      case None => Sent(messages[1..])
  }

  /** A fragmented text message read in one piece is delivered; cut between its frames it raises. */
  lemma FragmentsRaise()
    ensures exists s, a, b ::
      s == a + b && Parse(s, None).msgs == [Some(Text([65, 66]))] && Deliver([], [a, b]).end.Failed?
  {
    hide Wire, ReadFrame, WellFormed, Parse, Deliver;
    Letters();
    var f, g := Frame(false, 1, None, [65]), Frame(true, 0, None, [66]);
    var a, b := Wire(f), Wire(g);
    var s := a + b;
    ReadWire(f);
    ReadWire(g);
    assert a[|a|..] == [] && b[|b|..] == [];
    var tail: seq<seq<Byte>> := [b];
    assert [a, b] == [a] + tail;
    var ab: seq<Byte> := [65, 66];
    assert f.payload + g.payload == ab;
    NoFrame();
    ParseOne([], [], None);
    ParseOne([], [], Some(Text(f.payload)));
    ParseOne([], a, None);
    ParseOne([], b, Some(Text(f.payload)));
    ParseOne([], b, None);
    assert Parse(a, None) == Parsed([], [], More(Some(Text(f.payload))));
    TwoPieces(a, b, tail);
    DeliverFails(b, tail);
    ParseSplit(a, b, None);
    var none: seq<Byte> := [];
    assert none + b == b;
    assert Parse(s, None).msgs == [Some(Text(ab))];
  }

  /** The messages out and the parse of what is left are those of the whole buffer. */
  predicate GoesOn(all: seq<Byte>, out: seq<Option<Message>>, buf: seq<Byte>, msg: Option<Message>) {
    Parse(all, None) == Before(out, Parse(buf, msg))
  }

  lemma Starts(buf: seq<Byte>)
    ensures GoesOn(buf, [], buf, None)
  {
    assert [] + Parse(buf, None).msgs == Parse(buf, None).msgs;
  }

  lemma GoesStep(all: seq<Byte>, out: seq<Option<Message>>, buf: seq<Byte>, msg: Option<Message>)
    requires GoesOn(all, out, buf, msg)
    ensures match ReadFrame(buf)
      case None => Parse(all, None) == Parsed(out, buf, More(msg))
      case Some(Read(f, size)) =>
        match Take(msg, f)
        case Stop => Parse(all, None) == Parsed(out, buf, Closed)
        case Fail => Parse(all, None).end == Failed && Parse(all, None).rest == buf
        case Keep(m) => GoesOn(all, if f.fin then out + [m] else out, buf[size..], if f.fin then None else m)
  {
    hide ReadFrame, Parse, Take;
    ParseOne(out, buf, msg);
    assert out + [] == out;
  }

  lemma Letters()
    ensures WellFormed([65]) && WellFormed([66])
  {
    assert [65][1..] == [] && [66][1..] == [];
  }

  lemma DeliverFails(b: seq<Byte>, tail: seq<seq<Byte>>)
    requires tail == [b] && Parse(b, None).end.Failed?
    ensures Deliver([], tail).end.Failed?
  {
    hide Parse;
    var none: seq<Byte> := [];
    assert none + b == b;
  }

  /** socket.recv: the next piece, nothing once the peer has closed. */
  class Socket {
    var pieces: seq<seq<Byte>>

    constructor (pieces: seq<seq<Byte>>)
      ensures this.pieces == pieces
    {
      this.pieces := pieces;
    }

    method Recv() returns (delta: seq<Byte>)
      modifies this
      ensures if old(pieces) == [] then delta == [] && pieces == []
        else delta == old(pieces)[0] && pieces == old(pieces)[1..]
    {
      delta := [];
      if pieces != [] { delta, pieces := pieces[0], pieces[1..]; }
    }
  }

  class WebSocket {
    const socket: Socket
    const version: int
    var closed: bool
    var buf: seq<Byte>
    var msgs: seq<Option<Message>>

    constructor (socket: Socket, version: int)
      ensures this.socket == socket && this.version == version
      ensures Value() == Conn([], [], false, socket.pieces)
    {
      this.socket, this.version := socket, version;
      closed, buf, msgs := false, [], [];
    }

    ghost function Value(): Conn
      reads this, socket
    {
      Conn(buf, msgs, closed, socket.pieces)
    }

    /** The loop of _parse_messages up to the dispatch: the frame at the front of the buffer. */
    method FrontFrame() returns (fin: bool, opcode: nat, data: seq<Byte>, idx: nat, whole: bool)
      ensures whole <==> ReadFrame(buf).Some?
      ensures whole ==> ReadFrame(buf).value.size == idx && idx <= |buf|
      ensures whole ==> ReadFrame(buf).value.frame.(key := None) == Frame(fin, opcode, None, data)
    {
      hide Number, Masked;
      fin, opcode, data, idx, whole := false, 0, [], 0, false;
      if |buf| < idx + 2 { return; }
      var b1, b2 := buf[idx], buf[idx + 1];
      idx := idx + 2;
      fin, opcode := b1 >= 128, b1 % 16;
      var mask, length := b2 >= 128, b2 % 128;
      if length == 126 {
        if |buf| < idx + 2 { return; }
        length := Number(buf[idx..idx + 2]);
        idx := idx + 2;
      } else if length == 127 {
        if |buf| < idx + 8 { return; }
        length := Number(buf[idx..idx + 8]);
        idx := idx + 8;
      }
      assert ReadLength(buf) == Some(Length(length, idx));
      var maskdata: Key := [0, 0, 0, 0];
      if mask {
        if |buf| < idx + 4 { return; }
        maskdata := KeyAt(buf, idx);
        idx := idx + 4;
      }
      if |buf| < idx + length { return; }
      data := buf[idx..idx + length];
      idx := idx + length;
      if mask { data := Masked(data, maskdata); }
      whole := true;
    }

    /** The dispatch of _parse_messages on one frame. */
    method Dispatch(msg: Option<Message>, isText: bool, ghost f: Frame, opcode: nat, data: seq<Byte>)
      returns (t: Taken, isText': bool)
      requires f.opcode == opcode && f.payload == data && (msg.Some? ==> (msg.value.Text? <==> isText))
      ensures t == Take(msg, f)
      ensures t.Keep? && t.msg.Some? ==> (t.msg.value.Text? <==> isText')
    {
      hide WellFormed;
      t, isText' := Fail, isText;
      if opcode == 0 {
        if msg != None && !(isText && !WellFormed(data)) {
          t := Keep(Some(msg.value.(payload := msg.value.payload + data)));
        }
      } else if opcode == 1 {
        isText' := true;
        if WellFormed(data) { t := Keep(Some(Text(data))); }
      } else if opcode == 2 {
        isText' := false;
        t := Keep(Some(Binary(data)));
      } else if opcode == 8 {
        t := Stop;
      } else if opcode == 9 || opcode == 10 {
        t := Keep(msg);
      }
    }

    /** _parse_messages. */
    method ParseMessages() returns (out: seq<Option<Message>>, raised: bool)
      modifies this`buf, this`closed
      ensures raised <==> version != 13 || Parse(old(buf), None).end.Failed?
      ensures version == 13 ==> buf == Parse(old(buf), None).rest
      ensures version == 13 ==> (closed <==> old(closed) || Parse(old(buf), None).end.Closed?)
      ensures !raised ==> out == Parse(old(buf), None).msgs
      ensures version != 13 ==> buf == old(buf) && closed == old(closed)
    {
      hide ReadFrame, Parse, Take, GoesOn;
      Starts(buf);
      out, raised := [], version != 13;
      if raised { return; }
      var msg: Option<Message> := None;
      var isText := false;
      while true
        invariant !raised && closed == old(closed)
        invariant msg.Some? ==> (msg.value.Text? <==> isText)
        invariant GoesOn(old(buf), out, buf, msg)
        decreases |buf|
      {
        var fin, opcode, data, idx, whole := FrontFrame();
        GoesStep(old(buf), out, buf, msg);
        if !whole { return; }
        var t;
        t, isText := Dispatch(msg, isText, ReadFrame(buf).value.frame, opcode, data);
        if t.Stop? {
          closed := true;
          return;
        }
        if t.Fail? { return out, true; }
        msg := t.msg;
        buf := buf[idx..];
        if fin {
          out := out + [msg];
          msg := None;
        }
      }
    }

    /** wait. */
    method Next() returns (value: Option<Message>, raised: bool)
      requires [] !in socket.pieces
      modifies this, socket
      ensures version == 13 ==> Outcome(value, raised, Value()) == Wait(old(Value()))
      ensures version != 13 ==> (raised <==> old(msgs) == [] && !old(closed) && old(socket.pieces) != [])
      ensures [] !in socket.pieces
    {
      value, raised := None, false;
      while |msgs| == 0
        invariant value == None && !raised && [] !in socket.pieces
        invariant Wait(Value()) == Wait(old(Value()))
        invariant version != 13 ==> Value() == old(Value())
        decreases |socket.pieces|
      {
        if closed { return; }
        var delta := socket.Recv();
        if delta == [] { return; }
        buf := buf + delta;
        var got, failed := ParseMessages();
        if failed { return None, true; }
        msgs := msgs + got;
      }
      value, msgs := msgs[0], msgs[1..];
    }
  }
}
