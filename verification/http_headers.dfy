/** The incremental header matchers against plain string comparison. */
module HttpHeaders {
  import opened Bytes
  import opened HttpSpec
  import opened HttpSafety

  /** What the matcher of h compares letter i of a name with: Transfer-Encoding alone is not lower-cased
      after its first letter, nor is the value chunked. */
  function Reads(h: HeaderState, i: nat, ch: Byte): Byte {
    if h.HMatchingTransferEncoding? then (if i == 0 && ch == 't' as int then 'T' as int else ch)
    else if h.HMatchingTransferEncodingChunked? then (if i == 0 then Lower(ch) else ch)
    else if h.HMatchingConnectionKeepAlive? || h.HMatchingConnectionClose? then Lower(ch)
    else Token(ch)
  }

  /** s is a prefix of the word of h, as far as its matcher can tell. */
  predicate Begins(h: HeaderState, s: seq<Byte>) {
    |s| <= |Word(h)| && forall i :: 0 <= i < |s| ==> Reads(h, i, s[i]) == CharAt(Word(h), i)
  }

  predicate Spells(h: HeaderState, s: seq<Byte>) {
    |s| == |Word(h)| && Begins(h, s)
  }

  predicate IsName(s: seq<Byte>) {
    |s| > 0 && forall i :: 0 <= i < |s| ==> Token(s[i]) != 0
  }

  function MatchName(s: seq<Byte>): (HeaderState, nat)
    requires |s| > 0
  {
    if |s| == 1 then (FieldStart(Token(s[0])), 0)
    else var (h, i) := MatchName(s[..|s|-1]); FieldChar(h, i, s[|s|-1])
  }

  lemma BeginsSnoc(h: HeaderState, s: seq<Byte>)
    requires |s| > 0
    ensures Begins(h, s) <==>
      Begins(h, s[..|s|-1]) && |s| <= |Word(h)| && Reads(h, |s|-1, s[|s|-1]) == CharAt(Word(h), |s|-1)
  {
    hide Reads, CharAt, Word;
    var s' := s[..|s|-1];
    assert forall i :: 0 <= i < |s'| ==> s'[i] == s[i];
    if Begins(h, s') && |s| <= |Word(h)| && Reads(h, |s|-1, s[|s|-1]) == CharAt(Word(h), |s|-1) {
      forall i | 0 <= i < |s| ensures Reads(h, i, s[i]) == CharAt(Word(h), i) {
        if i < |s'| { assert s[i] == s'[i]; }
      }
    }
    if Begins(h, s) {
      forall i | 0 <= i < |s'| ensures Reads(h, i, s'[i]) == CharAt(Word(h), i) {
        assert s[i] == s'[i];
      }
    }
  }

  /** The state in which the field matcher has seen the n octets of s, read as a statement about s. */
  predicate NameState(h: HeaderState, s: seq<Byte>) {
    match h
    case HC => |s| == 1 && Begins(HMatchingConnection, s)
    case HCO => |s| == 2 && Begins(HMatchingConnection, s)
    case HCON => |s| == 3 && Begins(HMatchingConnection, s)
    case HMatchingConnection => 4 <= |s| < 10 && Begins(h, s)
    case HMatchingContentLength => 4 <= |s| < 14 && Begins(h, s)
    case HMatchingProxyConnection => 1 <= |s| < 16 && Begins(h, s)
    case HMatchingTransferEncoding => 1 <= |s| < 17 && Begins(h, s)
    case HMatchingUpgrade => 1 <= |s| < 7 && Begins(h, s)
    case HConnection => Spells(HMatchingConnection, s) || Spells(HMatchingProxyConnection, s)
    case HContentLength => Spells(HMatchingContentLength, s)
    case HTransferEncoding => Spells(HMatchingTransferEncoding, s)
    case HUpgrade => Spells(HMatchingUpgrade, s)
    case _ => false
  }

  lemma FirstLetters()
    ensures CharAt(Word(HMatchingConnection), 0) == CharAt(Word(HMatchingContentLength), 0) == 'c' as int
    ensures CharAt(Word(HMatchingConnection), 1) == CharAt(Word(HMatchingContentLength), 1) == 'o' as int
    ensures CharAt(Word(HMatchingConnection), 2) == CharAt(Word(HMatchingContentLength), 2) == 'n' as int
    ensures CharAt(Word(HMatchingConnection), 3) == 'n' as int && CharAt(Word(HMatchingContentLength), 3) == 't' as int
    ensures CharAt(Word(HMatchingProxyConnection), 0) == 'p' as int
    ensures CharAt(Word(HMatchingTransferEncoding), 0) == 'T' as int
    ensures CharAt(Word(HMatchingUpgrade), 0) == 'u' as int
  {
  }

  /** The matcher's state says exactly which known name, or which part of one, s is. */
  predicate Told(h: HeaderState, i: nat, s: seq<Byte>) {
    && FieldMatching(h)
    && (forall g :: g != HGeneral ==> (NameState(g, s) <==> h == g))
    && (h != HGeneral ==> i + 1 == |s|)
  }

  /** The letters in front of the last one, for every word a name can be. */
  lemma AllSnoc(s: seq<Byte>)
    requires |s| > 0
    ensures forall h {:trigger Begins(h, s)} :: Begins(h, s) <==>
      Begins(h, s[..|s|-1]) && |s| <= |Word(h)| && Reads(h, |s|-1, s[|s|-1]) == CharAt(Word(h), |s|-1)
  {
    hide *;
    forall h: HeaderState
      ensures Begins(h, s) <==>
        Begins(h, s[..|s|-1]) && |s| <= |Word(h)| && Reads(h, |s|-1, s[|s|-1]) == CharAt(Word(h), |s|-1)
    {
      BeginsSnoc(h, s);
    }
  }

  lemma Lengths()
    ensures |Word(HMatchingConnection)| == 10 && |Word(HMatchingProxyConnection)| == 16
    ensures |Word(HMatchingContentLength)| == 14 && |Word(HMatchingTransferEncoding)| == 17
    ensures |Word(HMatchingUpgrade)| == 7
  {
  }

  lemma BeginsNothing()
    ensures forall h {:trigger Begins(h, [])} :: Begins(h, [])
  {
  }

  lemma FirstTold(s: seq<Byte>)
    requires IsName(s) && |s| == 1
    ensures Told(FieldStart(Token(s[0])), 0, s)
  {
    hide Word, CharAt, Begins;
    FirstLetters();
    Lengths();
    AllSnoc(s);
    assert s[..0] == [];
    BeginsNothing();
  }

  lemma {:induction false} SharedStart(s: seq<Byte>)
    requires |s| <= 3
    ensures Begins(HMatchingConnection, s) <==> Begins(HMatchingContentLength, s)
  {
    hide Word, CharAt, Begins;
    FirstLetters();
    Lengths();
    if |s| == 0 {
      BeginsNothing();
    } else {
      AllSnoc(s);
      SharedStart(s[..|s|-1]);
    }
  }

  lemma NextTold(h: HeaderState, i: nat, s: seq<Byte>)
    requires IsName(s) && |s| > 1 && Told(h, i, s[..|s|-1])
    ensures var (g, j) := FieldChar(h, i, s[|s|-1]); Told(g, j, s)
  {
    hide Word, CharAt, Begins;
    FirstLetters();
    Lengths();
    AllSnoc(s);
    if |s| <= 4 { SharedStart(s[..|s|-1]); }
    var s', c := s[..|s|-1], s[|s|-1];
    var (k, j) := FieldChar(h, i, c);
    forall g | g != HGeneral
      ensures NameState(g, s) <==> k == g
    {
      match g
      case HC =>
      case HCO => assert NameState(HC, s') <==> h == HC;
      case HCON => assert NameState(HCO, s') <==> h == HCO;
      case HMatchingConnection => assert NameState(HCON, s') <==> h == HCON; assert NameState(g, s') <==> h == g;
      case HMatchingContentLength => assert NameState(HCON, s') <==> h == HCON; assert NameState(g, s') <==> h == g;
      case HMatchingProxyConnection => assert NameState(g, s') <==> h == g;
      case HMatchingTransferEncoding => assert NameState(g, s') <==> h == g;
      case HMatchingUpgrade => assert NameState(g, s') <==> h == g;
      case HConnection =>
        assert NameState(HMatchingConnection, s') <==> h == HMatchingConnection;
        assert NameState(HMatchingProxyConnection, s') <==> h == HMatchingProxyConnection;
      case HContentLength => assert NameState(HMatchingContentLength, s') <==> h == HMatchingContentLength;
      case HTransferEncoding => assert NameState(HMatchingTransferEncoding, s') <==> h == HMatchingTransferEncoding;
      case HUpgrade => assert NameState(HMatchingUpgrade, s') <==> h == HMatchingUpgrade;
      case _ =>
    }
  }

  /** The field matcher is string comparison, whatever the name. */
  lemma {:induction false} NameTold(s: seq<Byte>)
    requires IsName(s)
    ensures var (h, i) := MatchName(s); Told(h, i, s)
  {
    if |s| == 1 {
      FirstTold(s);
    } else {
      NameTold(s[..|s|-1]);
      var (h, i) := MatchName(s[..|s|-1]);
      NextTold(h, i, s);
    }
  }

  /** The header that announces chunks is known by its exact letters after the first: other spellings of
      it, all lower-case for one, are ordinary headers to this parser. */
  lemma CodingByLetter(s: seq<Byte>)
    requires IsName(s)
    ensures MatchName(s).0.HTransferEncoding? <==>
      |s| == 17 && (s[0] == 't' as int || s[0] == 'T' as int)
      && forall i :: 1 <= i < 17 ==> s[i] == CharAt("Transfer-Encoding", i)
  {
    hide MatchName;
    NameTold(s);
    assert NameState(HTransferEncoding, s) <==> MatchName(s).0 == HTransferEncoding;
    assert Word(HMatchingTransferEncoding) == "Transfer-Encoding" && |Word(HMatchingTransferEncoding)| == 17;
    if NameState(HTransferEncoding, s) {
      forall i | 1 <= i < 17 ensures s[i] == CharAt("Transfer-Encoding", i) {
        assert Reads(HMatchingTransferEncoding, i, s[i]) == s[i];
      }
    }
  }

  // ---------- values ----------

  predicate IsValue(s: seq<Byte>) {
    |s| > 0 && forall i :: 0 <= i < |s| ==> s[i] != CR && s[i] != LF
  }

  /** The value matcher for a header recognised as h. */
  function MatchValue(h: HeaderState, s: seq<Byte>): (HeaderState, nat)
    requires |s| > 0
  {
    if |s| == 1 then (ValueStart(h, s[0]), 0)
    else var (g, i) := MatchValue(h, s[..|s|-1]); ValueChar(g, i, s[|s|-1])
  }

  /** The word of w followed by spaces only. */
  predicate SpellsPadded(w: HeaderState, s: seq<Byte>) {
    |Word(w)| <= |s| && Spells(w, s[..|Word(w)|]) && forall i :: |Word(w)| <= i < |s| ==> s[i] == SP
  }

  lemma PaddedSnoc(w: HeaderState, s: seq<Byte>)
    requires |s| > 0 && |Word(w)| > 0
    ensures SpellsPadded(w, s) <==>
      if |s| <= |Word(w)| then Spells(w, s) else SpellsPadded(w, s[..|s|-1]) && s[|s|-1] == SP
  {
    hide Word, Begins;
    var s' := s[..|s|-1];
    if |s| <= |Word(w)| {
      if |s| == |Word(w)| { assert s[..|Word(w)|] == s; }
    } else {
      assert s'[..|Word(w)|] == s[..|Word(w)|];
      assert forall i :: 0 <= i < |s'| ==> s'[i] == s[i];
    }
  }

  lemma PaddedLong(s: seq<Byte>)
    ensures forall w {:trigger SpellsPadded(w, s)} :: SpellsPadded(w, s) ==> |Word(w)| <= |s|
  {
  }

  predicate ValueState(g: HeaderState, h: HeaderState, s: seq<Byte>) {
    match g
    case HMatchingTransferEncodingChunked => h.HTransferEncoding? && 1 <= |s| < 7 && Begins(g, s)
    case HMatchingConnectionKeepAlive => h.HConnection? && 1 <= |s| < 10 && Begins(g, s)
    case HMatchingConnectionClose => h.HConnection? && 1 <= |s| < 5 && Begins(g, s)
    case HTransferEncodingChunked => h.HTransferEncoding? && SpellsPadded(HMatchingTransferEncodingChunked, s)
    case HConnectionKeepAlive => h.HConnection? && SpellsPadded(HMatchingConnectionKeepAlive, s)
    case HConnectionClose => h.HConnection? && SpellsPadded(HMatchingConnectionClose, s)
    case _ => false
  }

  predicate ValueTold(g: HeaderState, i: nat, h: HeaderState, s: seq<Byte>) {
    && ValueMatching(g) && !g.HContentLength?
    && (forall k :: k != HGeneral ==> (ValueState(k, h, s) <==> g == k))
    && (g.HMatchingTransferEncodingChunked? || g.HMatchingConnectionKeepAlive? || g.HMatchingConnectionClose?
        ==> i + 1 == |s|)
  }

  lemma ValueLengths()
    ensures |Word(HMatchingTransferEncodingChunked)| == 7
    ensures |Word(HMatchingConnectionKeepAlive)| == 10 && |Word(HMatchingConnectionClose)| == 5
    ensures CharAt(Word(HMatchingTransferEncodingChunked), 0) == CharAt(Word(HMatchingConnectionClose), 0) == 'c' as int
    ensures CharAt(Word(HMatchingConnectionKeepAlive), 0) == 'k' as int
  {
  }

  lemma FirstValueTold(h: HeaderState, s: seq<Byte>)
    requires |s| == 1 && !h.HContentLength?
    ensures ValueTold(ValueStart(h, s[0]), 0, h, s)
  {
    hide Word, CharAt, Begins;
    ValueLengths();
    AllSnoc(s);
    assert s[..0] == [];
    BeginsNothing();
  }

  lemma NextCodingTold(g: HeaderState, i: nat, h: HeaderState, s: seq<Byte>)
    requires IsValue(s) && |s| > 1 && ValueTold(g, i, h, s[..|s|-1]) && h.HTransferEncoding?
    ensures var (k, j) := ValueChar(g, i, s[|s|-1]); ValueTold(k, j, h, s)
  {
    hide Word, CharAt, Begins, SpellsPadded;
    ValueLengths();
    AllSnoc(s);
    PaddedSnoc(HMatchingTransferEncodingChunked, s);
    var s' := s[..|s|-1];
    PaddedLong(s');
    assert !ValueState(HMatchingConnectionKeepAlive, h, s') && !ValueState(HMatchingConnectionClose, h, s');
    assert !ValueState(HConnectionKeepAlive, h, s') && !ValueState(HConnectionClose, h, s');
    var (k, j) := ValueChar(g, i, s[|s|-1]);
    forall f | f != HGeneral
      ensures ValueState(f, h, s) <==> k == f
    {
      match f
      case HMatchingTransferEncodingChunked => assert ValueState(f, h, s') <==> g == f;
      case HTransferEncodingChunked =>
        assert ValueState(HMatchingTransferEncodingChunked, h, s') <==> g == HMatchingTransferEncodingChunked;
        assert ValueState(f, h, s') <==> g == f;
      case _ =>
    }
  }

  lemma NextConnectionTold(g: HeaderState, i: nat, h: HeaderState, s: seq<Byte>)
    requires IsValue(s) && |s| > 1 && ValueTold(g, i, h, s[..|s|-1]) && h.HConnection?
    ensures var (k, j) := ValueChar(g, i, s[|s|-1]); ValueTold(k, j, h, s)
  {
    hide Word, CharAt, Begins, SpellsPadded;
    ValueLengths();
    AllSnoc(s);
    PaddedSnoc(HMatchingConnectionKeepAlive, s);
    PaddedSnoc(HMatchingConnectionClose, s);
    var s' := s[..|s|-1];
    PaddedLong(s');
    assert !ValueState(HMatchingTransferEncodingChunked, h, s') && !ValueState(HTransferEncodingChunked, h, s');
    var (k, j) := ValueChar(g, i, s[|s|-1]);
    forall f | f != HGeneral
      ensures ValueState(f, h, s) <==> k == f
    {
      match f
      case HMatchingConnectionKeepAlive => assert ValueState(f, h, s') <==> g == f;
      case HMatchingConnectionClose => assert ValueState(f, h, s') <==> g == f;
      case HConnectionKeepAlive =>
        assert ValueState(HMatchingConnectionKeepAlive, h, s') <==> g == HMatchingConnectionKeepAlive;
        assert ValueState(f, h, s') <==> g == f;
      case HConnectionClose =>
        assert ValueState(HMatchingConnectionClose, h, s') <==> g == HMatchingConnectionClose;
        assert ValueState(f, h, s') <==> g == f;
      case _ =>
    }
  }

  lemma NextOtherTold(g: HeaderState, i: nat, h: HeaderState, s: seq<Byte>)
    requires IsValue(s) && |s| > 1 && ValueTold(g, i, h, s[..|s|-1]) && !h.HTransferEncoding? && !h.HConnection?
    ensures var (k, j) := ValueChar(g, i, s[|s|-1]); ValueTold(k, j, h, s)
  {
    assert ValueState(g, h, s[..|s|-1]) || g.HGeneral?;
  }

  lemma {:induction false} ValuesTold(h: HeaderState, s: seq<Byte>)
    requires IsValue(s) && !h.HContentLength?
    ensures var (g, i) := MatchValue(h, s); ValueTold(g, i, h, s)
  {
    if |s| == 1 {
      FirstValueTold(h, s);
    } else {
      ValuesTold(h, s[..|s|-1]);
      var (g, i) := MatchValue(h, s[..|s|-1]);
      if h.HTransferEncoding? { NextCodingTold(g, i, h, s); }
      else if h.HConnection? { NextConnectionTold(g, i, h, s); }
      else { NextOtherTold(g, i, h, s); }
    }
  }
}
