/** The headers an application gives a response: what is refused, what is skipped, and the length they declare. */
module ResponseHeaders {
  import opened Bytes
  import opened HttpRuns
  import opened Options

  type HttpHeader = (seq<Byte>, seq<Byte>)

  function Ascii(s: string): seq<Byte>
    requires forall i :: 0 <= i < |s| ==> s[i] < 256 as char
  {
    seq(|s|, i requires 0 <= i < |s| => s[i] as int)
  }

  const SERVER := "meinheld/1.0.2"

  /** One header line, as add_header lays it out. */
  function HeaderLine(key: seq<Byte>, value: seq<Byte>): seq<Byte> {
    key + Ascii(": ") + value + CRLF
  }

  function HeaderLines(hs: seq<HttpHeader>): seq<Byte> {
    if hs == [] then [] else HeaderLines(hs[..|hs|-1]) + HeaderLine(hs[|hs|-1].0, hs[|hs|-1].1)
  }

  lemma LinesSnoc(hs: seq<HttpHeader>, h: HttpHeader)
    ensures HeaderLines(hs + [h]) == HeaderLines(hs) + HeaderLine(h.0, h.1)
  {
    assert (hs + [h])[..|hs|] == hs;
  }

  // ---- the C string functions ----

  /** What strchr, strcasecmp and strtol see of some octets. */
  function Text(s: seq<Byte>): seq<Byte> {
    Until(s, 0)
  }

  function ToLower(c: Byte): Byte {
    if 'A' as int <= c <= 'Z' as int then c + 32 else c
  }

  /** strcasecmp(s, w) == 0 for a lower-case w. */
  predicate SameName(s: seq<Byte>, w: string) {
    |Text(s)| == |w| && forall i :: 0 <= i < |w| ==> ToLower(Text(s)[i]) == w[i] as int
  }

  lemma NotLength(s: seq<Byte>)
    requires SameName(s, "server") || SameName(s, "date")
    ensures !SameName(s, "content-length")
  {
  }

  predicate IsSpace(c: Byte) {
    9 <= c <= 13 || c == SP
  }

  predicate AllDigits(s: seq<Byte>) {
    forall i :: 0 <= i < |s| ==> IsNum(s[i])
  }

  function ToLong(s: seq<Byte>): nat
    requires AllDigits(s)
  {
    if s == [] then 0
    else
      assert IsNum(s[|s|-1]);
      ToLong(s[..|s|-1]) * 10 + (s[|s|-1] - '0' as int)
  }

  const LONG_MAX: nat := 0x7FFF_FFFF_FFFF_FFFF

  /** The number of a Content-Length as strtol with the tests behind it takes it: spaces and a sign may lead, the
      digits must go on to the end, and it must be neither negative nor too large.  No text at all is 0. */
  function Declared(value: seq<Byte>): Option<nat> {
    if Text(value) == [] then Some(0) else Number(Text(value))
  }

  function Number(s: seq<Byte>): Option<nat> {
    if s == [] then None
    else if IsSpace(s[0]) then Number(s[1..])
    else
      var signed := s[0] == '-' as int || s[0] == '+' as int;
      var ds := if signed then s[1..] else s;
      if ds == [] || !AllDigits(ds) || ToLong(ds) > LONG_MAX || (s[0] == '-' as int && ToLong(ds) > 0) then None
      else Some(ToLong(ds))
  }

  // ---- what add_all_headers does with the list ----

  /** The tests on a header's name and value. */
  predicate Refused(h: HttpHeader) {
    ':' as int in Text(h.0) || LF in Text(h.0) || LF in Text(h.1)
  }

  /** The server writes its own Server and Date. */
  predicate Skipped(h: HttpHeader) {
    SameName(h.0, "server") || SameName(h.0, "date")
  }

  function Kept(hs: seq<HttpHeader>): seq<HttpHeader> {
    if hs == [] then [] else if Skipped(hs[|hs|-1]) then Kept(hs[..|hs|-1]) else Kept(hs[..|hs|-1]) + [hs[|hs|-1]]
  }

  predicate IsLength(h: HttpHeader) {
    SameName(h.0, "content-length")
  }

  /** content_length_set and content_length behind the headers, or None when one of them is refused: the first
      Content-Length counts, any further one is sent as it is. */
  function LengthAfter(hs: seq<HttpHeader>, known: bool, length: nat): Option<(bool, nat)> {
    if hs == [] then Some((known, length))
    else
      match LengthAfter(hs[..|hs|-1], known, length)
      case None => None
      case Some((k, n)) =>
        var h := hs[|hs|-1];
        if Refused(h) then None
        else if !k && IsLength(h) then
          match Declared(h.1)
          case None => None
          case Some(d) => Some((true, d))
        else Some((k, n))
  }

  lemma NoHeaders(hs: seq<HttpHeader>, known: bool, length: nat)
    requires hs == []
    ensures HeaderLines(Kept(hs)) == [] && LengthAfter(hs, known, length) == Some((known, length))
  {}

  lemma OneHeader(hs: seq<HttpHeader>, i: nat)
    requires i < |hs|
    ensures Kept(hs[..i + 1]) == if Skipped(hs[i]) then Kept(hs[..i]) else Kept(hs[..i]) + [hs[i]]
    ensures hs[..i + 1][..i] == hs[..i] && hs[..i + 1][i] == hs[i]
  {
    hide Skipped;
    assert hs[..i + 1] == hs[..i] + [hs[i]];
  }

  /** One header more. */
  lemma LengthStep(hs: seq<HttpHeader>, i: nat, known: bool, length: nat, k: bool, n: nat)
    requires i < |hs| && LengthAfter(hs[..i], known, length) == Some((k, n))
    ensures LengthAfter(hs[..i + 1], known, length) ==
      if Refused(hs[i]) then None
      else if !k && IsLength(hs[i]) then
        match Declared(hs[i].1)
        case None => None
        case Some(d) => Some((true, d))
      else Some((k, n))
  {
    hide Refused, IsLength, Declared;
    OneHeader(hs, i);
  }

  lemma {:induction false} RefusedStays(hs: seq<HttpHeader>, i: nat, known: bool, length: nat)
    requires i <= |hs| && LengthAfter(hs[..i], known, length).None?
    ensures LengthAfter(hs, known, length).None?
    decreases |hs|
  {
    if i == |hs| {
      assert hs[..i] == hs;
    } else {
      assert hs[..|hs|-1][..i] == hs[..i];
      RefusedStays(hs[..|hs|-1], i, known, length);
    }
  }

  lemma {:induction false} KeptShorter(hs: seq<HttpHeader>)
    ensures |HeaderLines(Kept(hs))| <= |HeaderLines(hs)|
  {
    if hs != [] {
      KeptShorter(hs[..|hs|-1]);
      var k := Kept(hs[..|hs|-1]);
      assert (k + [hs[|hs|-1]])[..|k|] == k;
    }
  }

  /** No header of an accepted list is refused. */
  lemma {:induction false} NoneRefused(hs: seq<HttpHeader>, known: bool, length: nat)
    requires LengthAfter(hs, known, length).Some?
    ensures forall i :: 0 <= i < |hs| ==> !Refused(hs[i])
  {
    hide Refused;
    if hs != [] {
      var front := hs[..|hs|-1];
      NoneRefused(front, known, length);
      assert forall i :: 0 <= i < |front| ==> front[i] == hs[i];
    }
  }

  /** content_length_set tells whether there is a Content-Length among the headers. */
  lemma {:induction false} LengthKnown(hs: seq<HttpHeader>, length: nat)
    requires LengthAfter(hs, false, length).Some?
    ensures LengthAfter(hs, false, length).value.0 <==> exists i :: 0 <= i < |hs| && IsLength(hs[i])
  {
    hide Refused, IsLength, Declared;
    if hs != [] {
      var front := hs[..|hs|-1];
      LengthKnown(front, length);
      assert forall i :: 0 <= i < |front| ==> front[i] == hs[i];
    }
  }

  // ---- what the tests miss ----

  /** The tests stop at the first NUL, the octets sent do not: an accepted header holds no line feed and its name no
      colon where there is no NUL in front of it. */
  lemma RefusedExactly(h: HttpHeader)
    ensures LF in h.1 && !Refused(h) ==> 0 in h.1
    ensures 0 !in h.0 && 0 !in h.1 ==> (Refused(h) <==> ':' as int in h.0 || LF in h.0 || LF in h.1)
  {
    TextWhole(h.0);
    TextWhole(h.1);
  }

  lemma {:induction false} TextWhole(s: seq<Byte>)
    ensures 0 !in s ==> Text(s) == s
  {
    if s != [] && 0 !in s {
      TextWhole(s[1..]);
      assert s == [s[0]] + s[1..];
    }
  }

  /** ("X", "a", NUL, line feed, "Set-Cookie: b") is accepted, and written with its line feed. */
  lemma NewlineBehindNul()
    ensures var h := ([88], [97, 0, LF] + Ascii("Set-Cookie: b"));
      !Refused(h) && LF in h.1 && LengthAfter([h], false, 0) == Some((false, 0)) && LF in HeaderLine(h.0, h.1)[..6]
  {
    var v: seq<Byte> := [97, 0, LF];
    var rest := Ascii("Set-Cookie: b");
    var h: HttpHeader := ([88], v + rest);
    assert h.1[0] == 97 && h.1[1] == 0 && h.1[2] == LF;
    assert Text(h.1) == [97] by { assert h.1[1..][0] == 0; }
    assert Text(h.0) == [88] by { assert h.0[1..] == []; }
    assert [h][..0] == [];
    assert LengthAfter([], false, 0) == Some((false, 0));
    assert HeaderLine(h.0, h.1)[5] == LF;
  }

  // ---- names and numbers, as they are written ----

  /** Two names are the same exactly if they differ in the case of letters only. */
  lemma SameNameExactly(s: seq<Byte>, w: string)
    requires 0 !in s && forall i :: 0 <= i < |w| ==> 'a' <= w[i] <= 'z' || w[i] == '-'
    ensures SameName(s, w) <==> SpellsWord(s, w)
  {
    TextWhole(s);
    if SameName(s, w) {
      forall i | 0 <= i < |w| ensures s[i] == w[i] as int || ('a' <= w[i] <= 'z' && s[i] == w[i] as int - 32) {
        assert ToLower(s[i]) == w[i] as int;
      }
    }
    if SpellsWord(s, w) {
      forall i | 0 <= i < |w| ensures ToLower(s[i]) == w[i] as int {
        assert s[i] == w[i] as int || ('a' <= w[i] <= 'z' && s[i] == w[i] as int - 32);
      }
    }
  }

  /** The decimal digits of n, without zeros in front. */
  function Print(n: nat): (s: seq<Byte>)
    ensures |s| > 0
  {
    if n < 10 then [48 + n] else Print(n / 10) + [48 + n % 10]
  }

  function Zeros(k: nat): (s: seq<Byte>)
    ensures |s| == k
  {
    seq(k, _ => 48)
  }

  /** n in decimal, zeros, a sign and white space in front; a minus sign stands before a nought only. */
  ghost predicate Writes(s: seq<Byte>, n: nat) {
    exists spaces: seq<Byte>, sign: seq<Byte>, k: nat :: WritesAs(s, n, spaces, sign, k)
  }

  predicate WritesAs(s: seq<Byte>, n: nat, spaces: seq<Byte>, sign: seq<Byte>, k: nat) {
    && s == spaces + (sign + (Zeros(k) + Print(n)))
    && (forall c :: c in spaces ==> c in {9, 10, 11, 12, 13, 32})
    && (sign == [] || sign == [43] || (sign == [45] && n == 0))
  }

  lemma {:induction false} PrintRead(n: nat, k: nat)
    ensures AllDigits(Zeros(k) + Print(n)) && ToLong(Zeros(k) + Print(n)) == n
    decreases n
  {
    var s := Zeros(k) + Print(n);
    if n < 10 {
      assert s[..|s| - 1] == Zeros(k);
      ZerosRead(k);
    } else {
      PrintRead(n / 10, k);
      assert s[..|s| - 1] == Zeros(k) + Print(n / 10);
      assert s == s[..|s| - 1] + [48 + n % 10];
    }
  }

  lemma {:induction false} ZerosRead(k: nat)
    ensures AllDigits(Zeros(k)) && ToLong(Zeros(k)) == 0
  {
    if k > 0 {
      ZerosRead(k - 1);
      assert Zeros(k)[..k - 1] == Zeros(k - 1);
    }
  }

  lemma {:induction false} ReadPrinted(s: seq<Byte>) returns (k: nat)
    requires s != [] && AllDigits(s)
    ensures s == Zeros(k) + Print(ToLong(s))
    decreases |s|
  {
    var front, d := s[..|s| - 1], s[|s| - 1];
    assert s == front + [d];
    if front == [] {
      k := 0;
    } else {
      k := ReadPrinted(front);
      var m := ToLong(front);
      if m == 0 {
        k := k + 1;
        assert front == Zeros(k);
      } else {
        assert Zeros(k) + (Print(m) + [d]) == front + [d];
      }
    }
  }

  lemma {:induction false} SpacesSkipped(spaces: seq<Byte>, s: seq<Byte>)
    requires forall c :: c in spaces ==> IsSpace(c)
    ensures s != [] ==> Number(spaces + s) == Number(s)
    decreases |spaces|
  {
    hide AllDigits, ToLong;
    if spaces == [] {
      assert spaces + s == s;
    } else {
      assert (spaces + s)[1..] == spaces[1..] + s;
      SpacesSkipped(spaces[1..], s);
    }
  }

  lemma {:induction false} NumberWritten(s: seq<Byte>) returns (spaces: seq<Byte>, rest: seq<Byte>)
    requires Number(s).Some?
    ensures s == spaces + rest && (forall c :: c in spaces ==> IsSpace(c))
    ensures rest != [] && !IsSpace(rest[0]) && Number(rest) == Number(s)
    decreases |s|
  {
    hide AllDigits, ToLong;
    if IsSpace(s[0]) {
      spaces, rest := NumberWritten(s[1..]);
      spaces := [s[0]] + spaces;
      assert s == [s[0]] + s[1..];
    } else {
      spaces, rest := [], s;
    }
  }

  lemma PrintFirst(n: nat, k: nat)
    ensures var ds := Zeros(k) + Print(n); ds != [] && IsNum(ds[0])
  {
    PrintRead(n, k);
    var ds := Zeros(k) + Print(n);
    assert IsNum(ds[0]);
  }

  /** A Content-Length declares n exactly if it writes n and n is at most 2^63-1, or if it is empty and n is 0. */
  lemma DeclaredExactly(value: seq<Byte>, n: nat)
    ensures Declared(value) == Some(n) <==>
      (Text(value) == [] && n == 0) || (Writes(Text(value), n) && n < 0x8000_0000_0000_0000)
  {
    hide Text, Number, Writes;
    var s := Text(value);
    if s != [] && Number(s) == Some(n) { ReadsWritten(s, n); }
    if Writes(s, n) && n < 0x8000_0000_0000_0000 { WrittenReads(s, n); }
  }

  /** What a header that declares d writes is d. */
  lemma WritesOne(value: seq<Byte>, n: nat, d: nat)
    requires Writes(Text(value), n) && Declared(value) == Some(d)
    ensures n == d
  {
    hide Text, Writes, Number;
    var s := Text(value);
    assert s != [] by { WrittenFirst(s, n); }
    WrittenValue(s, n, d);
  }

  lemma WrittenFirst(s: seq<Byte>, n: nat)
    requires Writes(s, n)
    ensures s != []
  {
    hide Print, Zeros;
  }

  lemma WrittenValue(s: seq<Byte>, n: nat, d: nat)
    requires Writes(s, n) && Number(s) == Some(d)
    ensures n == d
  {
    hide Print, Zeros, Number, AllDigits, ToLong, IsSpace;
    var spaces: seq<Byte>, sign: seq<Byte>, k: nat :| WritesAs(s, n, spaces, sign, k);
    var ds := Zeros(k) + Print(n);
    PrintRead(n, k);
    PrintFirst(n, k);
    SpacesAre(spaces);
    SpacesSkipped(spaces, sign + ds);
    SignValue(sign, ds, d);
  }

  lemma SignValue(sign: seq<Byte>, ds: seq<Byte>, d: nat)
    requires sign == [] || sign == [43] || sign == [45]
    requires ds != [] && IsNum(ds[0]) && AllDigits(ds) && Number(sign + ds) == Some(d)
    ensures ToLong(ds) == d
  {
    hide ToLong, AllDigits;
    if sign != [] { assert (sign + ds)[1..] == ds; } else { assert sign + ds == ds; }
  }

  lemma ReadsWritten(s: seq<Byte>, n: nat)
    requires Number(s) == Some(n)
    ensures Writes(s, n) && n < 0x8000_0000_0000_0000
  {
    hide Print, Zeros, WritesAs;
    var spaces, rest := NumberWritten(s);
    SpacesAre(spaces);
    NumberHere(rest, n);
    var signed := rest[0] == 43 || rest[0] == 45;
    var sign, ds := if signed then [rest[0]] else [], if signed then rest[1..] else rest;
    var k := ReadPrinted(ds);
    assert rest == sign + ds;
    WrittenAs(s, n, spaces, sign, k, rest, ds);
  }

  lemma WrittenAs(s: seq<Byte>, n: nat, spaces: seq<Byte>, sign: seq<Byte>, k: nat, rest: seq<Byte>, ds: seq<Byte>)
    requires s == spaces + rest && rest == sign + ds && ds == Zeros(k) + Print(n)
    requires (forall c :: c in spaces ==> c in {9, 10, 11, 12, 13, 32})
    requires sign == [] || sign == [43] || (sign == [45] && n == 0)
    ensures WritesAs(s, n, spaces, sign, k)
  {
    hide Print, Zeros;
  }

  lemma NumberHere(rest: seq<Byte>, n: nat)
    requires rest != [] && !IsSpace(rest[0]) && Number(rest) == Some(n)
    ensures var signed := rest[0] == 43 || rest[0] == 45;
      var ds := if signed then rest[1..] else rest;
      ds != [] && AllDigits(ds) && ToLong(ds) == n < 0x8000_0000_0000_0000 && (rest[0] == 45 ==> n == 0)
  {
    hide ToLong;
  }

  lemma SpacesAre(spaces: seq<Byte>)
    ensures (forall c :: c in spaces ==> IsSpace(c)) <==> (forall c :: c in spaces ==> c in {9, 10, 11, 12, 13, 32})
  {}

  lemma WrittenReads(s: seq<Byte>, n: nat)
    requires Writes(s, n) && n < 0x8000_0000_0000_0000
    ensures s != [] && Number(s) == Some(n)
  {
    hide Print, Zeros, Number, AllDigits, ToLong, IsSpace;
    var spaces: seq<Byte>, sign: seq<Byte>, k: nat :| WritesAs(s, n, spaces, sign, k);
    var ds := Zeros(k) + Print(n);
    PrintRead(n, k);
    PrintFirst(n, k);
    SpacesAre(spaces);
    SpacesSkipped(spaces, sign + ds);
    SignRead(sign, ds, n);
  }

  lemma SignRead(sign: seq<Byte>, ds: seq<Byte>, n: nat)
    requires sign == [] || sign == [43] || (sign == [45] && n == 0)
    requires ds != [] && IsNum(ds[0]) && AllDigits(ds) && ToLong(ds) == n < 0x8000_0000_0000_0000
    ensures Number(sign + ds) == Some(n)
  {
    hide ToLong, AllDigits;
    if sign != [] { assert (sign + ds)[1..] == ds; } else { assert sign + ds == ds; }
  }

  /** The first Content-Length of a list is header i. */
  predicate FirstLength(hs: seq<HttpHeader>, i: nat) {
    i < |hs| && IsLength(hs[i]) && forall j :: 0 <= j < i ==> !IsLength(hs[j])
  }

  /** A list is accepted exactly if no header is refused and the first Content-Length, if any, declares a number; that
      number is then the length. */
  lemma {:induction false} AcceptedExactly(hs: seq<HttpHeader>, length: nat)
    ensures LengthAfter(hs, false, length).Some? <==>
      (forall i :: 0 <= i < |hs| ==> !Refused(hs[i]))
      && forall i: nat :: FirstLength(hs, i) ==> Declared(hs[i].1).Some?
    ensures forall i: nat :: LengthAfter(hs, false, length).Some? && FirstLength(hs, i) ==>
      LengthAfter(hs, false, length) == Some((true, Declared(hs[i].1).value))
    ensures LengthAfter(hs, false, length).Some? && (forall i :: 0 <= i < |hs| ==> !IsLength(hs[i])) ==>
      LengthAfter(hs, false, length) == Some((false, length))
  {
    hide Refused, IsLength, Declared;
    if hs != [] {
      var front := hs[..|hs|-1];
      AcceptedExactly(front, length);
      assert forall i :: 0 <= i < |front| ==> front[i] == hs[i];
      assert forall i: nat :: i < |front| ==> (FirstLength(front, i) <==> FirstLength(hs, i));
      if LengthAfter(front, false, length).Some? { LengthKnown(front, length); }
    }
  }
}
