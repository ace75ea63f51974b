/** Octets and the ASCII classes the C macros of the parser test. */
module Bytes {
  type Byte = b: int | 0 <= b < 256

  const CR: Byte := 13
  const LF: Byte := 10
  const SP: Byte := 32
  const HT: Byte := 9

  /** The largest uint64_t: the parser's mark for a message without a Content-Length. */
  const ULLONG_MAX: nat := 0xFFFF_FFFF_FFFF_FFFF

  /** The length of body a message announces by its count. */
  function Announced(contentLength: nat): nat {
    if contentLength == ULLONG_MAX then 0 else contentLength
  }

  /** Element i of a C string literal: its terminating NUL from the end on. */
  function CharAt(s: string, i: nat): int {
    if i < |s| then s[i] as int else 0
  }

  /** s up to its first b, or all of it; up to a NUL it is what the C string functions see. */
  function Until(s: seq<Byte>, b: Byte): (r: seq<Byte>)
    ensures r <= s && b !in r
    ensures |r| < |s| ==> s[|r|] == b
  {
    if s == [] || s[0] == b then [] else [s[0]] + Until(s[1..], b)
  }

  /** s is w, a word in small letters and hyphens, but for the case of its letters. */
  predicate SpellsWord(s: seq<Byte>, w: string) {
    |s| == |w| && forall i :: 0 <= i < |w| ==>
      s[i] == w[i] as int || ('a' <= w[i] <= 'z' && s[i] == w[i] as int - 32)
  }

  predicate IsNum(ch: Byte) {
    '0' as int <= ch <= '9' as int
  }

  /** LOWER: the octet with bit 0x20 set. */
  function Lower(ch: Byte): Byte {
    if (ch / 32) % 2 == 1 then ch else ch + 32
  }

  predicate IsAlpha(ch: Byte) {
    'a' as int <= Lower(ch) <= 'z' as int
  }

  /** TOKEN: the lower-cased octet when it may stand in a header name, 0 otherwise. */
  function Token(ch: Byte): Byte {
    if 'A' as int <= ch <= 'Z' as int then ch + 32
    else if 'a' as int <= ch <= 'z' as int || IsNum(ch) then ch
    else if ch == '!' as int || '#' as int <= ch <= '\'' as int || ch == '*' as int || ch == '+' as int
            || ch == '-' as int || ch == '.' as int || '^' as int <= ch <= '`' as int
            || ch == '|' as int || ch == '~' as int then ch
    else 0
  }

  /** IS_URL_CHAR under HTTP_PARSER_STRICT. */
  predicate IsUrlChar(ch: Byte) {
    33 <= ch < 127 && ch != '#' as int && ch != '?' as int
  }

  predicate IsMark(ch: Byte) {
    ch == '-' as int || ch == '_' as int || ch == '.' as int || ch == '!' as int || ch == '~' as int
    || ch == '*' as int || ch == '\'' as int || ch == '(' as int || ch == ')' as int
  }

  predicate IsUserinfoChar(ch: Byte) {
    IsAlpha(ch) || IsNum(ch) || IsMark(ch) || ch == '%' as int || ch == ';' as int || ch == ':' as int
    || ch == '&' as int || ch == '=' as int || ch == '+' as int || ch == '$' as int || ch == ',' as int
  }

  /** The table unhex: -1 for an ASCII octet that is no hexadecimal digit.
      Its initialiser covers 128 entries only, so every octet above reads as digit 0. */
  function Unhex(ch: Byte): (d: int)
    ensures -1 <= d < 16
  {
    if IsNum(ch) then ch - '0' as int
    else if 'A' as int <= ch <= 'F' as int then ch - 'A' as int + 10
    else if 'a' as int <= ch <= 'f' as int then ch - 'a' as int + 10
    else if 128 <= ch then 0
    else -1
  }

  // ---- the same classes, octet by octet ----

  lemma LettersExactly(ch: Byte)
    ensures IsNum(ch) <==> 48 <= ch <= 57
    ensures IsAlpha(ch) <==> 65 <= ch <= 90 || 97 <= ch <= 122
  {}

  /** Letters, which are lower-cased, digits, and the other marks of a token (section 3.2.6 of RFC 7230). */
  lemma TokensExactly(ch: Byte)
    ensures Token(ch) == if 65 <= ch <= 90 then ch + 32
      else if 48 <= ch <= 57 || 97 <= ch <= 122
              || ch in {33, 35, 36, 37, 38, 39, 42, 43, 45, 46, 94, 95, 96, 124, 126} then ch else 0
  {}

  /** Hexadecimal digits of either case; of the other octets those in ASCII are none. */
  lemma HexExactly(ch: Byte)
    ensures ch < 128 ==> Unhex(ch) == if 48 <= ch <= 57 then ch - 48 else if 65 <= ch <= 70 then ch - 55
      else if 97 <= ch <= 102 then ch - 87 else -1
  {}
}
