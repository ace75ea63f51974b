/** The request target on its way to PATH_INFO and QUERY_STRING, decoded in place. */
module UrlPath {
  import opened Bytes
  import opened Pieces
  import opened RequestBody
  import opened Options

  const PERCENT: Byte := 37
  const QUESTION: Byte := 63
  const HASH: Byte := 35
  const LIMIT_PATH: nat := 1024 * 8

  /** An octet read through a signed char. */
  function Signed(b: Byte): int {
    if b < 128 then b else b - 256
  }

  function ToUpper(i: int): int {
    if 'a' as int <= i <= 'z' as int then i - 32 else i
  }

  /** hex2int: whatever it is given, it does not look whether that is a digit. */
  function Hex2Int(i: int): int {
    var d := ToUpper(i) - '0' as int;
    if d > 9 then d - 'A' as int + '9' as int + 1 else d
  }

  /** The char an escape stands for. */
  function EscapeValue(a: Byte, b: Byte): Byte {
    (Hex2Int(Signed(a)) * 16 + Hex2Int(Signed(b))) % 256
  }

  /** Octets that are no digits are taken for some all the same: "%GG" stands for the octet 16. */
  lemma NoDigits()
    ensures EscapeValue('G' as int, 'G' as int) == 16
  {}

  /** Percent-decoding; a percent sign without two octets after it stands for itself. */
  function Unescape(s: seq<Byte>): (r: seq<Byte>)
    ensures |r| <= |s|
  {
    if s == [] then []
    else if s[0] == PERCENT && |s| > 2 then [EscapeValue(s[1], s[2])] + Unescape(s[3..])
    else [s[0]] + Unescape(s[1..])
  }

  /** The length of the path: up to the first ? or # outside an escape. */
  function PathLength(s: seq<Byte>): (n: nat)
    ensures n <= |s|
    ensures n < |s| ==> s[n] == QUESTION || s[n] == HASH
  {
    if s == [] then 0
    else if s[0] == PERCENT && |s| > 2 then 3 + PathLength(s[3..])
    else if s[0] == QUESTION || s[0] == HASH then 0
    else 1 + PathLength(s[1..])
  }

  /** The path, decoded. */
  function Decoded(s: seq<Byte>): seq<Byte> {
    Unescape(s[..PathLength(s)])
  }

  function PathInfo(s: seq<Byte>): seq<Byte> {
    Unescape(Decoded(s))
  }

  /** The text from the ? that ends the path to the next # or the end, where there is any; a NUL, which
      no accepted request target holds, would end it too. */
  function QueryString(s: seq<Byte>): Option<seq<Byte>> {
    var n := PathLength(s);
    if n < |s| && s[n] == QUESTION && Until(s[n + 1..], HASH) != [] then Some(Until(Until(s[n + 1..], HASH), 0))
    else None
  }

  // ---- in place ----

  lemma Associate(a: seq<Byte>, b: seq<Byte>, c: seq<Byte>)
    ensures a + (b + c) == (a + b) + c
  {}

  /** One escape of the path. */
  lemma EscapeStep(s: seq<Byte>, r: nat)
    requires r + 2 < |s| && s[r] == PERCENT
    ensures PathLength(s[r..]) == 3 + PathLength(s[r + 3..])
    ensures Decoded(s[r..]) == [EscapeValue(s[r + 1], s[r + 2])] + Decoded(s[r + 3..])
  {
    var t := s[r..];
    assert t[3..] == s[r + 3..];
    assert t[..PathLength(t)][3..] == s[r + 3..][..PathLength(s[r + 3..])];
  }

  /** One other octet of it. */
  lemma OctetStep(s: seq<Byte>, r: nat)
    requires r < |s| && !(s[r] == PERCENT && r + 2 < |s|) && s[r] != QUESTION && s[r] != HASH
    ensures PathLength(s[r..]) == 1 + PathLength(s[r + 1..])
    ensures Decoded(s[r..]) == [s[r]] + Decoded(s[r + 1..])
  {
    var t := s[r..];
    assert t[1..] == s[r + 1..];
    assert t[..PathLength(t)][1..] == s[r + 1..][..PathLength(s[r + 1..])];
  }

  lemma UnescapeStep(s: seq<Byte>, r: nat)
    requires r < |s|
    ensures Unescape(s[r..]) ==
      if s[r] == PERCENT && |s| - r > 2 then [EscapeValue(s[r + 1], s[r + 2])] + Unescape(s[r + 3..])
      else [s[r]] + Unescape(s[r + 1..])
  {
    assert |s| - r > 2 ==> s[r..][3..] == s[r + 3..];
    assert s[r..][1..] == s[r + 1..];
  }

  /** urldecode: the write cursor t stays behind the read cursor. */
  method UrlDecode(buf: array<Byte>, len: nat) returns (n: nat)
    requires len < buf.Length
    modifies buf
    ensures n <= len && buf[..n] == Unescape(old(buf[..len]))
    ensures buf[len + 1..] == old(buf[len + 1..])
  {
    hide Unescape, EscapeValue;
    ghost var s := buf[..len];
    ghost var done: seq<Byte> := [];
    var r, t, left := 0, 0, len;
    assert s[0..] == s;
    while left > 0
      invariant t <= r == len - left && r <= len && buf[..t] == done
      invariant forall i :: r <= i < len ==> buf[i] == s[i]
      invariant forall i :: len <= i < buf.Length ==> buf[i] == old(buf[i])
      invariant Unescape(s) == done + Unescape(s[r..])
    {
      UnescapeStep(s, r);
      var c := buf[r];
      r := r + 1;
      if c == PERCENT && left > 2 {
        c := EscapeValue(buf[r], buf[r + 1]);
        r := r + 2;
        left := left - 2;
      }
      Associate(done, [c], Unescape(s[r..]));
      done := done + [c];
      buf[t] := c;
      t := t + 1;
      left := left - 1;
    }
    EmptyPath();
    assert s[r..] == [] && done + [] == done;
    buf[t] := 0;
    n := t;
  }

  lemma EmptyPath()
    ensures Unescape([]) == [] && PathLength([]) == 0 && Decoded([]) == []
  {}

  /** set_query: len counts the ? too, so that the octet after the text is looked at, whatever it is. */
  method SetQuery(buf: array<Byte>, from: nat, len: nat) returns (query: Option<seq<Byte>>)
    requires len > 0 && from + len <= buf.Length
    ensures var text := buf[from..from + len - 1];
      query == if Until(text, HASH) == [] then None else Some(Until(Until(text, HASH), 0))
  {
    hide Until;
    var r, left, slen: nat := from, len, 0;
    while left > 0
      invariant r == from + slen && left == len - slen && slen <= len
      invariant forall j :: from <= j < r ==> buf[j] != HASH
    {
      var c := buf[r];
      r := r + 1;
      if c == HASH {
        slen := slen + 1;
        break;
      }
      left := left - 1;
      slen := slen + 1;
    }
    ghost var text := buf[from..from + len - 1];
    UntilIs(text, slen - 1);
    assert text[..slen - 1] == buf[from..from + slen - 1];
    if slen > 1 {
      query := Some(Until(buf[from..from + slen - 1], 0));
    } else {
      query := None;
    }
  }

  lemma {:induction false} UntilIs(text: seq<Byte>, k: nat)
    requires k <= |text| && forall j :: 0 <= j < k ==> text[j] != HASH
    requires k < |text| ==> text[k] == HASH
    ensures Until(text, HASH) == text[..k]
    decreases k
  {
    if k > 0 { UntilIs(text[1..], k - 1); }
  }

  /** The loop of set_path up to the octet r it stops at. */
  method FirstPass(buf: array<Byte>, len: nat) returns (t: nat, r: nat)
    requires len < buf.Length
    modifies buf
    ensures t <= r == PathLength(old(buf[..len])) && r <= len
    ensures buf[..t] == Decoded(old(buf[..len])) && buf[r..len] == old(buf[..len])[r..]
  {
    hide Unescape, EscapeValue, PathLength, Decoded;
    ghost var s := buf[..len];
    ghost var done: seq<Byte> := [];
    var left := len;
    t, r := 0, 0;
    assert s[0..] == s;
    while left > 0
      invariant t <= r == len - left && r <= len && buf[..t] == done
      invariant forall i :: r <= i < len ==> buf[i] == s[i]
      invariant PathLength(s) == r + PathLength(s[r..])
      invariant Decoded(s) == done + Decoded(s[r..])
    {
      var c := buf[r];
      if c == PERCENT && left > 2 {
        EscapeStep(s, r);
        c := EscapeValue(buf[r + 1], buf[r + 2]);
        r := r + 2;
        left := left - 2;
      } else if c == QUESTION || c == HASH {
        StopHere(s, r);
        break;
      } else {
        OctetStep(s, r);
      }
      r := r + 1;
      Associate(done, [c], Decoded(s[r..]));
      done := done + [c];
      buf[t] := c;
      t := t + 1;
      left := left - 1;
    }
    if left == 0 {
      EmptyPath();
      assert s[r..] == [];
    }
    assert done + [] == done;
    SliceIs(buf, s, r);
  }

  lemma SliceIs(buf: array<Byte>, s: seq<Byte>, r: nat)
    requires r <= |s| <= buf.Length && forall i :: r <= i < |s| ==> buf[i] == s[i]
    ensures buf[r..|s|] == s[r..]
  {}

  lemma AtQuestion(s: seq<Byte>, n: nat)
    requires n == PathLength(s) < |s| && s[n] == QUESTION
    ensures QueryString(s) == if Until(s[n + 1..], HASH) == [] then None else Some(Until(Until(s[n + 1..], HASH), 0))
  {}

  lemma NoQuestion(s: seq<Byte>)
    requires PathLength(s) == |s| || s[PathLength(s)] == HASH
    ensures QueryString(s) == None
  {}

  /** set_path: decoded once up to the ? or #, then once more. */
  method SetPath(buf: array<Byte>, len: nat) returns (path: seq<Byte>, query: Option<seq<Byte>>)
    requires len < buf.Length
    modifies buf
    ensures path == PathInfo(old(buf[..len])) && query == QueryString(old(buf[..len]))
  {
    hide Unescape, PathLength, Decoded, Until, QueryString;
    ghost var s := buf[..len];
    var slen, r := FirstPass(buf, len);
    assert r < len ==> buf[r] == buf[r..len][0];
    query := None;
    if r < len && buf[r] == QUESTION {
      query := SetQuery(buf, r + 1, len - r);
      assert buf[r + 1..len] == buf[r..len][1..] == s[r + 1..];
      AtQuestion(s, r);
    } else {
      NoQuestion(s);
    }
    slen := UrlDecode(buf, slen);
    path := buf[..slen];
  }

  lemma StopHere(s: seq<Byte>, r: nat)
    requires r < |s| && (s[r] == QUESTION || s[r] == HASH)
    ensures PathLength(s[r..]) == 0 && Decoded(s[r..]) == []
  {}

  // ---- encoding ----

  /** A hexadecimal digit, in either case. */
  function Digit(d: nat, upper: bool): (b: Byte)
    requires d < 16
    ensures b != PERCENT && b != QUESTION && b != HASH
  {
    if d < 10 then '0' as int + d else (if upper then 'A' as int else 'a' as int) + d - 10
  }

  /** Percent-encoding: the octets in keep stand for themselves. */
  function Escape(s: seq<Byte>, keep: set<Byte>, upper: bool): seq<Byte> {
    if s == [] then []
    else (if s[0] in keep then [s[0]]
      else [PERCENT, Digit(s[0] / 16, upper), Digit(s[0] % 16, upper)]) + Escape(s[1..], keep, upper)
  }

  /** The octets an encoder may leave alone. */
  predicate Plain(keep: set<Byte>) {
    PERCENT !in keep && QUESTION !in keep && HASH !in keep
  }

  lemma DigitValue(d: nat, upper: bool)
    requires d < 16
    ensures Hex2Int(Signed(Digit(d, upper))) == d
  {}

  lemma EscapeValueOf(b: Byte, upper: bool)
    ensures EscapeValue(Digit(b / 16, upper), Digit(b % 16, upper)) == b
  {
    DigitValue(b / 16, upper);
    DigitValue(b % 16, upper);
  }

  lemma {:induction false} UnescapeEscape(s: seq<Byte>, keep: set<Byte>, upper: bool)
    requires Plain(keep)
    ensures Unescape(Escape(s, keep, upper)) == s
  {
    if s != [] {
      var rest := Escape(s[1..], keep, upper);
      UnescapeEscape(s[1..], keep, upper);
      if s[0] in keep {
        assert ([s[0]] + rest)[1..] == rest;
      } else {
        EscapeValueOf(s[0], upper);
        var e := [PERCENT, Digit(s[0] / 16, upper), Digit(s[0] % 16, upper)];
        assert (e + rest)[3..] == rest;
      }
    }
  }

  /** An encoded path ends where its encoding ends. */
  lemma {:induction false} EscapeIsPath(s: seq<Byte>, keep: set<Byte>, upper: bool, rest: seq<Byte>)
    requires Plain(keep) && (rest == [] || rest[0] == QUESTION || rest[0] == HASH)
    ensures PathLength(Escape(s, keep, upper) + rest) == |Escape(s, keep, upper)|
  {
    hide Digit, PathLength;
    EmptyPath();
    if rest != [] { StopHere(rest, 0); assert rest[0..] == rest; }
    if s == [] {
      assert Escape(s, keep, upper) + rest == rest;
    } else {
      EscapeIsPath(s[1..], keep, upper, rest);
      var e := Escape(s[1..], keep, upper);
      if s[0] in keep {
        PathOver([s[0]], e + rest);
        Associate([s[0]], e, rest);
      } else {
        var x := [PERCENT, Digit(s[0] / 16, upper), Digit(s[0] % 16, upper)];
        PathOver(x, e + rest);
        Associate(x, e, rest);
      }
    }
  }

  lemma PathOver(x: seq<Byte>, t: seq<Byte>)
    requires (|x| == 1 && x[0] != PERCENT && x[0] != QUESTION && x[0] != HASH) || (|x| == 3 && x[0] == PERCENT)
    ensures PathLength(x + t) == |x| + PathLength(t)
  {
    assert (x + t)[|x|..] == t;
  }

  lemma EncodedPath(path: seq<Byte>, keep: set<Byte>, upper: bool, rest: seq<Byte>)
    requires Plain(keep) && (rest == [] || rest[0] == QUESTION || rest[0] == HASH)
    ensures var e := Escape(Escape(path, keep, upper), keep, upper);
      PathInfo(e + rest) == path && PathLength(e + rest) == |e|
  {
    hide Unescape, Escape, PathLength, Plain;
    var once := Escape(path, keep, upper);
    var e := Escape(once, keep, upper);
    UnescapeEscape(path, keep, upper);
    UnescapeEscape(once, keep, upper);
    EscapeIsPath(once, keep, upper, rest);
    assert (e + rest)[..|e|] == e;
  }

  /** A path encoded twice, with any query and any fragment after it, comes back from set_path; the
      query comes back as it is. */
  lemma EncodedTwice(path: seq<Byte>, keep: set<Byte>, upper: bool, query: seq<Byte>, fragment: seq<Byte>)
    requires Plain(keep) && HASH !in query && 0 !in query && query != []
    requires fragment == [] || fragment[0] == HASH
    ensures var e := Escape(Escape(path, keep, upper), keep, upper);
      && PathInfo(e + fragment) == path && QueryString(e + fragment) == None
      && PathInfo(e + ([QUESTION] + query + fragment)) == path
      && QueryString(e + ([QUESTION] + query + fragment)) == Some(query)
  {
    hide Unescape, Escape, PathLength, Plain, Until, PathInfo;
    var e := Escape(Escape(path, keep, upper), keep, upper);
    EncodedPath(path, keep, upper, fragment);
    var more := [QUESTION] + query + fragment;
    EncodedPath(path, keep, upper, more);
    var all := e + more;
    assert all[|e|] == QUESTION && all[|e| + 1..] == query + fragment;
    UntilIs(query + fragment, |query|);
    assert (query + fragment)[..|query|] == query;
    UntilNothing(query, 0);
  }

  lemma {:induction false} UntilNothing(s: seq<Byte>, b: Byte)
    requires b !in s
    ensures Until(s, b) == s
  {
    if s != [] { UntilNothing(s[1..], b); }
  }

  /** Some percent sign has two octets after it. */
  predicate HasEscape(s: seq<Byte>) {
    exists i :: 0 <= i < |s| - 2 && s[i] == PERCENT
  }

  lemma {:induction false} UnescapeKeeps(s: seq<Byte>)
    ensures Unescape(s) == s <==> !HasEscape(s)
  {
    if s != [] {
      UnescapeKeeps(s[1..]);
      if s[0] == PERCENT && |s| > 2 {
        assert |Unescape(s)| < |s|;
      } else {
        assert forall i :: 0 <= i < |s[1..]| - 2 ==> s[1..][i] == s[i + 1];
        if HasEscape(s) {
          var i :| 0 <= i < |s| - 2 && s[i] == PERCENT;
          assert s[1..][i - 1] == PERCENT;
        }
        if HasEscape(s[1..]) {
          var i :| 0 <= i < |s[1..]| - 2 && s[1..][i] == PERCENT;
          assert s[i + 1] == PERCENT;
        }
      }
    }
  }

  /** Encoded once, as clients do, a path comes back exactly when it holds no percent sign with two
      octets after it: set_path decodes twice. */
  lemma EncodedOnce(path: seq<Byte>, keep: set<Byte>, upper: bool)
    requires Plain(keep)
    ensures PathInfo(Escape(path, keep, upper)) == path <==> !HasEscape(path)
  {
    var e := Escape(path, keep, upper);
    EscapeIsPath(path, keep, upper, []);
    assert e + [] == e && e[..|e|] == e;
    UnescapeEscape(path, keep, upper);
    UnescapeKeeps(path);
  }

  /** url_cb over the pieces of a request target, then set_path: a target past the limit is refused with
      400, any other is decoded, whatever the buffer holds behind it. */
  method Target(pieces: seq<seq<Byte>>) returns (badRequestCode: nat, path: seq<Byte>, query: Option<seq<Byte>>)
    requires pieces != [] && forall i :: 0 <= i < |pieces| ==> 0 < |pieces[i]| < 0x8000_0000
    ensures badRequestCode == 0 <==> |Flatten(pieces)| <= 8192
    ensures badRequestCode != 0 ==> badRequestCode == 400
    ensures badRequestCode == 0 ==> path == PathInfo(Flatten(pieces)) && query == QueryString(Flatten(pieces))
  {
    hide Flatten, PathInfo, QueryString;
    path, query, badRequestCode := [], None, 0;
    var buffer := new Buffer(1024, LIMIT_PATH);
    NothingAfter([]);
    for i := 0 to |pieces|
      invariant buffer.Valid() && fresh(buffer.buf) && buffer.written == Flatten(pieces[..i])
        && |buffer.written| <= LIMIT_PATH
      invariant i > 0 ==> buffer.len < buffer.bufSize
    {
      FlattenSnoc(pieces, i);
      FlattenPrefix(pieces, i + 1);
      var ret := buffer.Write(pieces[i], true);
      if ret == LIMIT_OVER {
        return 400, [], None;
      }
    }
    assert pieces[..|pieces|] == pieces;
    path, query := SetPath(buffer.buf, buffer.len);
  }
}
