/** Request lines: the methods, the targets and the versions the parser takes. */
module HttpRequestLine {
  import opened Bytes
  import opened Pieces
  import opened HttpSpec
  import opened HttpHeaders
  import opened HttpRuns
  import opened HttpMessages

  /** The octets of an ASCII word. */
  function Octets(w: string): (s: seq<Byte>)
    ensures |s| == |w|
  {
    seq(|w|, i requires 0 <= i < |w| => if w[i] < 128 as char then w[i] as int else 0)
  }

  // ---- methods ----

  /** What the matcher makes of a word: the method it may be, or the error. */
  function ReadMethod(w: seq<Byte>): (Method, Errno)
    requires w != []
  {
    if |w| == 1 then FirstMethod(w[0])
    else
      var (m, e) := ReadMethod(w[..|w| - 1]);
      if e != OK then (m, e) else MethodChar(m, |w| - 1, w[|w| - 1])
  }

  /** The word stands for the method. */
  predicate Means(w: seq<Byte>, m: Method) {
    w != [] && ReadMethod(w) == (m, OK) && |w| == |Text(m)|
  }

  lemma ReadNext(w: seq<Byte>, k: nat)
    requires 0 < k < |w|
    ensures ReadMethod(w[..k + 1]) ==
      var (m, e) := ReadMethod(w[..k]);
      if e != OK then (m, e) else MethodChar(m, k, w[k])
  {
    assert w[..k + 1][..k] == w[..k];
  }

  /** Once the matcher is at a method, the other letters of its name keep it there. */
  lemma {:induction false} WalksOn(w: seq<Byte>, m: Method, k: nat)
    requires 0 < k <= |w| == |Text(m)| && ReadMethod(w[..k]) == (m, OK)
    requires forall i :: k <= i < |w| ==> w[i] == CharAt(Text(m), i)
    ensures Means(w, m)
    decreases |w| - k
  {
    hide Text;
    if k == |w| {
      assert w[..k] == w;
    } else {
      ReadNext(w, k);
      assert w[k] == CharAt(Text(m), k);
      WalksOn(w, m, k + 1);
    }
  }

  lemma Named(name: string, m: Method)
    requires name == Text(m) && |name| > 0 && forall i :: 0 <= i < |name| ==> 'A' <= name[i] <= 'Z'
    requires FirstMethod(name[0] as int) == (m, OK)
    ensures Means(Octets(name), m)
  {
    hide Text;
    var w := Octets(name);
    assert w[..1] == [name[0] as int];
    assert ReadMethod(w[..1]) == FirstMethod(w[0]);
    WalksOn(w, m, 1);
  }

  /** The names of which the matcher thinks something else at first, m0, up to letter k. */
  lemma Renamed(name: string, m0: Method, m: Method, k: nat)
    requires name == Text(m) && 0 < k < |name| && forall i :: 0 <= i < |name| ==> 'A' <= name[i] <= 'Z'
    requires FirstMethod(name[0] as int) == (m0, OK) && k < |Text(m0)|
    requires forall i :: 0 <= i < k ==> name[i] == Text(m0)[i]
    requires MethodChar(m0, k, name[k] as int) == (m, OK)
    ensures Means(Octets(name), m)
  {
    hide Text, MethodChar;
    var w := Octets(name);
    assert w[..1] == [name[0] as int];
    assert ReadMethod(w[..1]) == FirstMethod(w[0]);
    StaysAt(w, m0, 1, k);
    ReadNext(w, k);
    WalksOn(w, m, k + 1);
  }

  lemma {:induction false} StaysAt(w: seq<Byte>, m: Method, i: nat, k: nat)
    requires 0 < i <= k <= |w| && ReadMethod(w[..i]) == (m, OK)
    requires forall j :: i <= j < k ==> w[j] == CharAt(Text(m), j)
    ensures ReadMethod(w[..k]) == (m, OK)
    decreases k - i
  {
    hide Text;
    if i < k {
      ReadNext(w, i);
      assert w[i] == CharAt(Text(m), i);
      StaysAt(w, m, i + 1, k);
    }
  }

  lemma Letters(m: Method)
    requires m != MSEARCH
    ensures |Text(m)| > 0 && forall i :: 0 <= i < |Text(m)| ==> 'A' <= Text(m)[i] <= 'Z'
  {}

  /** The methods that their first letter tells. */
  predicate IsPlain(m: Method) {
    m in {DELETE, GET, HEAD, POST, CONNECT, OPTIONS, TRACE, LOCK, MKCOL, UNLOCK, REPORT, NOTIFY, SUBSCRIBE}
  }

  lemma Plain(m: Method)
    requires IsPlain(m)
    ensures Means(Octets(Text(m)), m)
  {
    hide Means;
    Letters(m);
    Named(Text(m), m);
  }

  /** The others, but for M-SEARCH, whose name the table of the source spells with spaces. */
  lemma Other(m: Method)
    requires !IsPlain(m) && m != MSEARCH
    ensures Means(Octets(Text(m)), m)
  {
    hide Means;
    Letters(m);
    if m in {PUT, PROPFIND, PROPPATCH, PATCH, PURGE} {
      LikePost(m);
    } else if m in {MOVE, MKACTIVITY, MERGE} {
      LikeMkcol(m);
    } else {
      LikeOthers(m);
    }
  }

  lemma LikePost(m: Method)
    requires m in {PUT, PROPFIND, PROPPATCH, PATCH, PURGE}
    ensures Means(Octets(Text(m)), m)
  {
    hide Means;
    Letters(m);
    match m
    case PUT => Renamed("PUT", POST, m, 1);
    case PROPFIND => Renamed("PROPFIND", POST, m, 1);
    case PROPPATCH => Twice("PROPPATCH", POST, 1, PROPFIND, 4, m);
    case PATCH => Renamed("PATCH", POST, m, 1);
    case PURGE => Twice("PURGE", POST, 1, PUT, 2, m);
    case _ =>
  }

  lemma LikeMkcol(m: Method)
    requires m in {MOVE, MKACTIVITY, MERGE}
    ensures Means(Octets(Text(m)), m)
  {
    hide Means;
    Letters(m);
    match m
    case MOVE => Renamed("MOVE", MKCOL, m, 1);
    case MKACTIVITY => Renamed("MKACTIVITY", MKCOL, m, 2);
    case MERGE => Renamed("MERGE", MKCOL, m, 1);
    case _ =>
  }

  lemma LikeOthers(m: Method)
    requires m in {COPY, SEARCH, CHECKOUT, UNSUBSCRIBE}
    ensures Means(Octets(Text(m)), m)
  {
    hide Means;
    Letters(m);
    match m
    case COPY => Renamed("COPY", CONNECT, m, 2);
    case SEARCH => Renamed("SEARCH", SUBSCRIBE, m, 1);
    case CHECKOUT => Renamed("CHECKOUT", CONNECT, m, 1);
    case UNSUBSCRIBE => Renamed("UNSUBSCRIBE", UNLOCK, m, 2);
    case _ =>
  }

  /** Each method by its name; a further one, M-SEARCH, has no name that the parser takes. */
  predicate IsMethod(name: string, m: Method) {
    match m
    case DELETE => name == "DELETE" case GET => name == "GET" case HEAD => name == "HEAD"
    case POST => name == "POST" case PUT => name == "PUT" case CONNECT => name == "CONNECT"
    case OPTIONS => name == "OPTIONS" case TRACE => name == "TRACE" case COPY => name == "COPY"
    case LOCK => name == "LOCK" case MKCOL => name == "MKCOL" case MOVE => name == "MOVE"
    case PROPFIND => name == "PROPFIND" case PROPPATCH => name == "PROPPATCH" case SEARCH => name == "SEARCH"
    case UNLOCK => name == "UNLOCK" case REPORT => name == "REPORT" case MKACTIVITY => name == "MKACTIVITY"
    case CHECKOUT => name == "CHECKOUT" case MERGE => name == "MERGE" case MSEARCH => false
    case NOTIFY => name == "NOTIFY" case SUBSCRIBE => name == "SUBSCRIBE"
    case UNSUBSCRIBE => name == "UNSUBSCRIBE" case PATCH => name == "PATCH" case PURGE => name == "PURGE"
  }

  lemma MethodsRead(name: string, m: Method)
    requires IsMethod(name, m)
    ensures Means(Octets(name), m)
  {
    hide Means;
    assert name == Text(m);
    if IsPlain(m) { Plain(m); } else { Other(m); }
  }

  lemma Twice(name: string, m0: Method, i: nat, m1: Method, k: nat, m: Method)
    requires name == Text(m) && i == 1 < k < |name| && forall j :: 0 <= j < |name| ==> 'A' <= name[j] <= 'Z'
    requires FirstMethod(name[0] as int) == (m0, OK) && MethodChar(m0, i, name[i] as int) == (m1, OK)
    requires k < |Text(m1)| && forall j :: i < j < k ==> name[j] == Text(m1)[j]
    requires MethodChar(m1, k, name[k] as int) == (m, OK)
    ensures Means(Octets(name), m)
  {
    hide Text, MethodChar;
    var w := Octets(name);
    assert w[..1] == [name[0] as int];
    assert ReadMethod(w[..1]) == FirstMethod(w[0]);
    ReadNext(w, 1);
    StaysAt(w, m1, 2, k);
    ReadNext(w, k);
    WalksOn(w, m, k + 1);
  }

  /** A word that is taken for a method has the letters of its name, the third aside: that one is not looked at
      everywhere. */
  lemma {:induction false} OnlyNames(w: seq<Byte>)
    requires w != [] && ReadMethod(w).1 == OK && ReadMethod(w).0 != MSEARCH
    ensures var m := ReadMethod(w).0;
      forall i :: 0 <= i < |w| && i != 2 ==> w[i] == CharAt(Text(m), i)
    decreases |w|
  {
    hide Text, CharAt, MethodChar, FirstMethod;
    if |w| == 1 {
      FirstFits(w[0]);
    } else {
      var front, k := w[..|w| - 1], |w| - 1;
      var m0, m := ReadMethod(front).0, ReadMethod(w).0;
      NeverBack(m0, k, w[k]);
      OnlyNames(front);
      Fits(m0, k, w[k]);
      forall i | 0 <= i < |w| && i != 2 ensures w[i] == CharAt(Text(m), i) {
        if i < k { assert front[i] == w[i]; }
      }
    }
  }

  lemma NeverBack(m: Method, k: nat, c: Byte)
    requires MethodChar(m, k, c).1 == OK && MethodChar(m, k, c).0 != MSEARCH
    ensures m != MSEARCH
  {
    hide Text, CharAt;
  }

  lemma FirstFits(c: Byte)
    requires FirstMethod(c).1 == OK
    ensures c == CharAt(Text(FirstMethod(c).0), 0)
  {}

  /** A letter the matcher takes fits the method it goes on with, as do the letters before. */
  lemma Fits(m: Method, k: nat, c: Byte)
    requires k > 0 && m != MSEARCH && MethodChar(m, k, c).1 == OK && MethodChar(m, k, c).0 != MSEARCH
    ensures var n := MethodChar(m, k, c).0;
      && (k != 2 ==> c == CharAt(Text(n), k))
      && forall i :: 0 <= i < k && i != 2 ==> CharAt(Text(m), i) == CharAt(Text(n), i)
  {
    hide Text, CharAt;
    var n := MethodChar(m, k, c).0;
    if n != m {
      Stems(m, n, k);
      if k != 2 { Turning(m, n, k, c); }
    }
  }

  predicate Splits(m: Method, n: Method, k: nat) {
    || (m == CONNECT && n == CHECKOUT && k == 1) || (m == CONNECT && n == COPY && k == 2)
    || (m == MKCOL && (n == MOVE || n == MERGE) && k == 1) || (m == MKCOL && n == MKACTIVITY && k == 2)
    || (m == SUBSCRIBE && n == SEARCH && k == 1)
    || (m == POST && (n == PROPFIND || n == PUT || n == PATCH) && k == 1)
    || (m == PUT && n == PURGE && k == 2) || (m == UNLOCK && n == UNSUBSCRIBE && k == 2)
    || (m == PROPFIND && n == PROPPATCH && k == 4)
  }

  lemma Stems(m: Method, n: Method, k: nat)
    ensures Splits(m, n, k) ==> forall i :: 0 <= i < k ==> CharAt(Text(m), i) == CharAt(Text(n), i)
  {}

  lemma Turning(m: Method, n: Method, k: nat, c: Byte)
    requires Splits(m, n, k) && MethodChar(m, k, c) == (n, OK) && k != 2
    ensures c == CharAt(Text(n), k)
  {}

  // ---- the method in front of a message ----

  predicate IsWord(w: seq<Byte>) {
    w != [] && forall i :: 0 <= i < |w| ==> w[i] != SP && w[i] != 0
  }

  lemma StepFirst(p: Parser, ch: Byte)
    requires p.state.StartReq? && p.nread < MAX_HEADER_SIZE && FirstMethod(ch).1 == OK
    ensures Step(p, ch) == Out(p.(nread := p.nread + 1, flags := NO_FLAGS, contentLength := ULLONG_MAX,
      verb := FirstMethod(ch).0, index := 1, state := ReqMethod), One(OnMessageBegin), Go)
  {
    hide StepUrl, StepVersion, StepChunk, StepField, StepValueStart, StepValue, StepLineEnd, StepHeadersEnd, StepBody;
  }

  lemma StepLetter(p: Parser, ch: Byte)
    requires p.state.ReqMethod? && p.nread < MAX_HEADER_SIZE && ch != SP && ch != 0
    requires MethodChar(p.verb, p.index, ch).1 == OK
    ensures Step(p, ch) ==
      Out(p.(nread := p.nread + 1, verb := MethodChar(p.verb, p.index, ch).0, index := p.index + 1), NoCall, Go)
  {
    hide StepUrl, StepVersion, StepChunk, StepField, StepValueStart, StepValue, StepLineEnd, StepHeadersEnd, StepBody,
         MethodChar, FirstMethod, Text;
  }

  lemma StepAfterMethod(p: Parser)
    requires p.state.ReqMethod? && p.nread < MAX_HEADER_SIZE && p.index == |Text(p.verb)|
    ensures Step(p, SP) == Out(p.(nread := p.nread + 1, index := p.index + 1, state := ReqSpacesBeforeUrl), NoCall, Go)
  {
    hide StepUrl, StepVersion, StepChunk, StepField, StepValueStart, StepValue, StepLineEnd, StepHeadersEnd, StepBody,
         MethodChar, FirstMethod, Text;
  }

  /** The first octets of a message: the method's name and the space behind it. */
  lemma {:induction false} RunWord(c: Conn, w: seq<Byte>)
    requires c.stop.Go? && c.p.state.StartReq? && c.p.nread + |w| <= MAX_HEADER_SIZE
    requires IsWord(w) && ReadMethod(w).1 == OK
    ensures Run(c, w) == Conn(c.p.(flags := NO_FLAGS, contentLength := ULLONG_MAX, verb := ReadMethod(w).0,
      index := |w|, nread := c.p.nread + |w|, state := ReqMethod), Emit(c.trace, OnMessageBegin), Go, c.used + |w|)
    decreases |w|
  {
    hide Step, Run, Emit, MethodChar, FirstMethod;
    var front, ch := w[..|w| - 1], w[|w| - 1];
    assert front + [ch] == w;
    if front == [] {
      assert w == [ch];
      RunOne(c, ch);
      StepFirst(c.p, ch);
    } else {
      RunWord(c, front);
      RunSnoc(c, front, ch);
      StepLetter(Run(c, front).p, ch);
    }
  }

  /** The parser behind the method of a new message. */
  function Begun(c: Conn, m: Method, n: nat, index: nat): Conn {
    Conn(c.p.(flags := NO_FLAGS, contentLength := ULLONG_MAX, verb := m, index := index, nread := c.p.nread + n,
              state := ReqSpacesBeforeUrl), Emit(c.trace, OnMessageBegin), Go, c.used + n)
  }

  lemma RunMethod(c: Conn, w: seq<Byte>, m: Method)
    requires c.stop.Go? && c.p.state.StartReq? && c.p.nread + |w| + 1 <= MAX_HEADER_SIZE
    requires IsWord(w) && Means(w, m)
    ensures Run(c, w + [SP]) == Begun(c, m, |w| + 1, |w| + 1)
  {
    hide Step, Run, Emit, Text;
    RunWord(c, w);
    RunSnoc(c, w, SP);
    StepAfterMethod(Run(c, w).p);
  }

  // ---- targets ----

  /** The octets a target may hold: visible ASCII. */
  predicate IsVisible(t: seq<Byte>) {
    forall i :: 0 <= i < |t| ==> 33 <= t[i] < 127
  }

  /** A path, with any query and fragment, or an asterisk. */
  predicate IsPathTarget(t: seq<Byte>) {
    t != [] && (t[0] == '/' as int || t[0] == '*' as int) && IsVisible(t)
  }

  /** A host as the parser takes it: unreserved octets and marks, escapes, brackets and colons, but no user. */
  predicate IsHost(t: seq<Byte>) {
    t != [] && forall i :: 0 <= i < |t| ==> IsHostOctet(t[i])
  }

  predicate IsHostOctet(ch: Byte) {
    IsAlpha(ch) || IsNum(ch) || ch in Octets("-_.!~*'()%;:&=+$,[]")
  }

  predicate IsScheme(t: seq<Byte>) {
    t != [] && forall i :: 0 <= i < |t| ==> IsAlpha(t[i])
  }

  /** "scheme://host", with a path or without. */
  ghost predicate IsAbsolute(t: seq<Byte>) {
    exists scheme: seq<Byte>, host: seq<Byte>, path: seq<Byte> :: IsAbsoluteAs(t, scheme, host, path)
  }

  predicate IsAbsoluteAs(t: seq<Byte>, scheme: seq<Byte>, host: seq<Byte>, path: seq<Byte>) {
    && t == scheme + (Octets("://") + (host + path)) && IsScheme(scheme) && IsHost(host)
    && (path == [] || (path[0] == '/' as int && IsVisible(path)))
  }

  /** What a request with this method may ask for. */
  ghost predicate IsTarget(m: Method, t: seq<Byte>) {
    if m == CONNECT then IsHost(t) else IsPathTarget(t) || IsAbsolute(t)
  }

  predicate InPath(s: State) {
    s.ReqPath? || s.ReqQueryStringStart? || s.ReqQueryString? || s.ReqFragmentStart? || s.ReqFragment?
  }

  /** The state the octets of a target lead to, Dead when one is refused. */
  function UrlRead(s: State, t: seq<Byte>): State {
    if t == [] then s
    else
      var q := UrlRead(s, t[..|t| - 1]);
      if q.Dead? then Dead else ParseUrlChar(q, t[|t| - 1])
  }

  lemma {:induction false} UrlReadMore(s: State, a: seq<Byte>, b: seq<Byte>)
    requires !UrlRead(s, a).Dead?
    ensures UrlRead(s, a + b) == UrlRead(UrlRead(s, a), b)
    decreases |b|
  {
    hide ParseUrlChar;
    if b == [] {
      assert a + b == a;
    } else {
      UrlReadMore(s, a, b[..|b| - 1]);
      assert (a + b)[..|a + b| - 1] == a + b[..|b| - 1];
    }
  }

  lemma UrlReadOne(s: State, ch: Byte)
    requires !s.Dead?
    ensures UrlRead(s, [ch]) == ParseUrlChar(s, ch)
  {
    assert [ch][..0] == [];
  }

  lemma PathGoesOn(s: State, ch: Byte)
    requires InPath(s)
    ensures if 33 <= ch < 127 then InPath(ParseUrlChar(s, ch)) else ParseUrlChar(s, ch).Dead?
  {}

  /** From a path on every visible octet is taken, and no other. */
  lemma {:induction false} PathRead(s: State, t: seq<Byte>)
    requires InPath(s)
    ensures if IsVisible(t) then InPath(UrlRead(s, t)) else UrlRead(s, t).Dead?
    decreases |t|
  {
    hide ParseUrlChar;
    if t != [] {
      var front := t[..|t| - 1];
      PathRead(s, front);
      assert IsVisible(t) <==> IsVisible(front) && 33 <= t[|t| - 1] < 127;
      if IsVisible(front) { PathGoesOn(UrlRead(s, front), t[|t| - 1]); }
    }
  }

  lemma {:induction false} HostRead(s: State, t: seq<Byte>)
    requires (s.ReqServerStart? || s.ReqServer?) && IsHost(t)
    ensures UrlRead(s, t).ReqServer?
    decreases |t|
  {
    hide ParseUrlChar, IsHostOctet;
    var front, ch := t[..|t| - 1], t[|t| - 1];
    if front != [] { HostRead(s, front); }
    HostOctet(s, ch);
    HostOctet(ReqServer, ch);
  }

  lemma HostOctet(s: State, ch: Byte)
    requires (s.ReqServerStart? || s.ReqServer?) && IsHostOctet(ch)
    ensures ParseUrlChar(s, ch).ReqServer?
  {}

  lemma {:induction false} SchemeRead(t: seq<Byte>)
    requires IsScheme(t)
    ensures UrlRead(ReqSpacesBeforeUrl, t).ReqSchema?
    decreases |t|
  {
    var front, ch := t[..|t| - 1], t[|t| - 1];
    if front != [] { SchemeRead(front); }
  }

  lemma SlashesRead()
    ensures UrlRead(ReqSchema, Octets("://")).ReqServerStart?
  {
    var t := Octets("://");
    assert t[..2] == [58, 47] && t[..2][..1] == [58] && t[..2][..1][..0] == [];
    assert UrlRead(ReqSchema, t[..2][..1]).ReqSchemaSlash?;
    assert UrlRead(ReqSchema, t[..2]).ReqSchemaSlashSlash?;
  }

  lemma TargetRead(m: Method, t: seq<Byte>)
    requires IsTarget(m, t)
    ensures var s := UrlRead(if m == CONNECT then ReqServerStart else ReqSpacesBeforeUrl, t);
      InPath(s) || s.ReqServer?
  {
    hide ParseUrlChar, UrlRead, IsHost, IsScheme, IsVisible;
    if m == CONNECT {
      HostRead(ReqServerStart, t);
    } else if IsPathTarget(t) {
      PathTargetRead(t);
    } else {
      var scheme: seq<Byte>, host: seq<Byte>, path: seq<Byte> :| IsAbsoluteAs(t, scheme, host, path);
      SchemeRead(scheme);
      SlashesRead();
      UrlReadMore(ReqSpacesBeforeUrl, scheme, Octets("://") + (host + path));
      UrlReadMore(ReqSchema, Octets("://"), host + path);
      HostRead(ReqServerStart, host);
      UrlReadMore(ReqServerStart, host, path);
      PathAfterHost(path);
    }
  }

  lemma PathTargetRead(t: seq<Byte>)
    requires IsPathTarget(t)
    ensures InPath(UrlRead(ReqSpacesBeforeUrl, t))
  {
    hide UrlRead;
    var one, rest := [t[0]], t[1..];
    assert t == one + rest && IsVisible(rest);
    UrlReadOne(ReqSpacesBeforeUrl, t[0]);
    UrlReadMore(ReqSpacesBeforeUrl, one, rest);
    PathRead(ReqPath, rest);
  }

  lemma PathAfterHost(path: seq<Byte>)
    requires path == [] || (path[0] == '/' as int && IsVisible(path))
    ensures path == [] ==> UrlRead(ReqServer, path) == ReqServer
    ensures path != [] ==> InPath(UrlRead(ReqServer, path))
  {
    if path != [] {
      hide UrlRead;
      var one, rest := [path[0]], path[1..];
      assert path == one + rest && IsVisible(rest);
      UrlReadOne(ReqServer, path[0]);
      UrlReadMore(ReqServer, one, rest);
      PathRead(ReqPath, rest);
    }
  }

  lemma StepUrlOctet(p: Parser, ch: Byte)
    requires InUrl(p.state) && p.nread < MAX_HEADER_SIZE && ch != SP && ch != CR && ch != LF
    ensures Step(p, ch) == StepUrlChar(p.(nread := p.nread + 1), p.state, ch)
  {
    hide StepStart, StepVersion, StepChunk, StepField, StepValueStart, StepValue, StepLineEnd, StepHeadersEnd, StepBody,
         ParseUrlChar;
  }

  lemma StepUrlFirst(p: Parser, ch: Byte)
    requires p.state.ReqSpacesBeforeUrl? && p.nread < MAX_HEADER_SIZE && ch != SP
    ensures Step(p, ch) ==
      StepUrlChar(p.(nread := p.nread + 1), if p.verb == CONNECT then ReqServerStart else ReqSpacesBeforeUrl, ch)
  {
    hide StepStart, StepVersion, StepChunk, StepField, StepValueStart, StepValue, StepLineEnd, StepHeadersEnd, StepBody,
         ParseUrlChar;
  }

  lemma UrlStates(s: State, ch: Byte)
    requires s.ReqSpacesBeforeUrl? || InUrl(s)
    ensures InUrl(ParseUrlChar(s, ch)) || ParseUrlChar(s, ch).Dead?
    ensures ch == SP || ch == CR || ch == LF ==> ParseUrlChar(s, ch).Dead?
  {}

  /** Octets that lead through the states of a target are one callback. */
  /** One octet of a target that is taken. */
  lemma StepTaken(p: Parser, ch: Byte)
    requires p.nread < MAX_HEADER_SIZE
    ensures var from := if p.state.ReqSpacesBeforeUrl? && p.verb == CONNECT then ReqServerStart else p.state;
      (p.state.ReqSpacesBeforeUrl? || InUrl(p.state)) && !ParseUrlChar(from, ch).Dead? ==>
        && InUrl(ParseUrlChar(from, ch))
        && Step(p, ch) == Out(p.(nread := p.nread + 1, state := ParseUrlChar(from, ch)), One(OnUrl([ch])), Go)
  {
    hide Step, ParseUrlChar;
    var from := if p.state.ReqSpacesBeforeUrl? && p.verb == CONNECT then ReqServerStart else p.state;
    if p.state.ReqSpacesBeforeUrl? || InUrl(p.state) {
      UrlStates(from, ch);
      if ch != SP && ch != CR && ch != LF {
        if p.state.ReqSpacesBeforeUrl? { StepUrlFirst(p, ch); } else { StepUrlOctet(p, ch); }
      }
    }
  }

  lemma UrlReadSnoc(s: State, t: seq<Byte>)
    requires t != [] && !UrlRead(s, t).Dead?
    ensures var front, ch := t[..|t| - 1], t[|t| - 1];
      && t == front + [ch] && !UrlRead(s, front).Dead? && UrlRead(s, t) == ParseUrlChar(UrlRead(s, front), ch)
      && (front == [] ==> UrlRead(s, front) == s)
  {
    hide ParseUrlChar;
  }

  /** Octets that lead through the states of a target are one callback. */
  lemma {:induction false} RunUrl(c: Conn, t: seq<Byte>)
    requires c.stop.Go? && c.p.state.ReqSpacesBeforeUrl? && t != [] && c.p.nread + |t| <= MAX_HEADER_SIZE
    requires !UrlRead(if c.p.verb == CONNECT then ReqServerStart else ReqSpacesBeforeUrl, t).Dead?
    ensures var s := UrlRead(if c.p.verb == CONNECT then ReqServerStart else ReqSpacesBeforeUrl, t);
      && InUrl(s)
      && Run(c, t) == Conn(c.p.(nread := c.p.nread + |t|, state := s), Emit(c.trace, OnUrl(t)), Go, c.used + |t|)
    decreases |t|
  {
    hide Step, Run, Emit, ParseUrlChar, UrlRead, InUrl;
    UrlReadSnoc(if c.p.verb == CONNECT then ReqServerStart else ReqSpacesBeforeUrl, t);
    var front, ch := t[..|t| - 1], t[|t| - 1];
    if front == [] {
      assert t == [ch];
      RunOne(c, ch);
      StepTaken(c.p, ch);
    } else {
      RunUrl(c, front);
      RunSnoc(c, front, ch);
      NotSpaces(Run(c, front).p.state);
      StepTaken(Run(c, front).p, ch);
      EmitTwice(c.trace, OnUrl(front), OnUrl([ch]));
    }
  }

  lemma NotSpaces(s: State)
    ensures InUrl(s) ==> !s.ReqSpacesBeforeUrl?
  {}

  /** The first octet behind a path that is neither visible nor the end of the target is refused. */
  lemma TargetRefused(c: Conn, t: seq<Byte>, ch: Byte)
    requires c.stop.Go? && c.p.state.ReqSpacesBeforeUrl? && c.p.verb != CONNECT
    requires IsPathTarget(t) && c.p.nread + |t| < MAX_HEADER_SIZE
    requires !(33 <= ch < 127) && ch != SP && ch != CR && ch != LF
    ensures Run(c, t + [ch]).stop.Failed? && Run(c, t + [ch]).p.errno == INVALID_URL
  {
    hide Step, Run, Emit, ParseUrlChar, UrlRead, IsVisible;
    PathTargetRead(t);
    RunUrl(c, t);
    RunSnoc(c, t, ch);
    var q := Run(c, t).p;
    StepUrlOctet(q, ch);
    PathGoesOn(q.state, ch);
  }

  lemma StepEndOfTarget(p: Parser)
    requires (InPath(p.state) || p.state.ReqServer?) && p.nread < MAX_HEADER_SIZE
    ensures Step(p, SP) == Out(p.(nread := p.nread + 1, state := ReqHttpStart), NoCall, Go)
  {
    hide StepStart, StepVersion, StepChunk, StepField, StepValueStart, StepValue, StepLineEnd, StepHeadersEnd, StepBody,
         ParseUrlChar;
  }

  // ---- versions ----

  function DigitOf(b: Byte): nat {
    if b >= 48 then b - 48 else 0
  }

  /** The number that digits denote. */
  function NumberOf(s: seq<Byte>): nat {
    if s == [] then 0 else NumberOf(s[..|s| - 1]) * 10 + DigitOf(s[|s| - 1])
  }

  predicate AreDigits(s: seq<Byte>) {
    forall i :: 0 <= i < |s| ==> 48 <= s[i] < 58
  }

  /** Digits of a number up to 999. */
  predicate IsVersion(s: seq<Byte>) {
    s != [] && AreDigits(s) && NumberOf(s) <= 999
  }

  lemma StepInVersion(p: Parser, ch: Byte)
    requires InVersion(p.state) && p.nread < MAX_HEADER_SIZE
    ensures Step(p, ch) == StepVersion(p.(nread := p.nread + 1), ch)
  {
    hide StepStart, StepUrl, StepVersion, StepChunk;
  }

  lemma RunNext(c: Conn, data: seq<Byte>, k: nat)
    requires k < |data|
    ensures Run(c, data[..k + 1]) == Advance(Run(c, data[..k]), data[k])
  {
    assert data[..k + 1][..k] == data[..k];
  }

  /** "HTTP/" */
  const HTTP: seq<Byte> := [72, 84, 84, 80, 47]

  function Further(p: Parser, k: nat, s: State): Parser {
    p.(nread := p.nread + k, state := s)
  }

  lemma StepHttp(p: Parser)
    requires p.state.ReqHttpStart? && p.nread + 5 <= MAX_HEADER_SIZE
    ensures Step(p, 72) == Out(Further(p, 1, ReqHttpH), NoCall, Go)
    ensures Step(Further(p, 1, ReqHttpH), 84) == Out(Further(p, 2, ReqHttpHT), NoCall, Go)
    ensures Step(Further(p, 2, ReqHttpHT), 84) == Out(Further(p, 3, ReqHttpHTT), NoCall, Go)
  {
    hide Step;
    StepInVersion(p, 72);
    StepInVersion(Further(p, 1, ReqHttpH), 84);
    StepInVersion(Further(p, 2, ReqHttpHT), 84);
  }

  lemma StepSlash(p: Parser)
    requires p.state.ReqHttpStart? && p.nread + 5 <= MAX_HEADER_SIZE
    ensures Step(Further(p, 3, ReqHttpHTT), 80) == Out(Further(p, 4, ReqHttpHTTP), NoCall, Go)
    ensures Step(Further(p, 4, ReqHttpHTTP), 47) == Out(Further(p, 5, ReqFirstHttpMajor), NoCall, Go)
  {
    hide Step;
    StepInVersion(Further(p, 3, ReqHttpHTT), 80);
    StepInVersion(Further(p, 4, ReqHttpHTTP), 47);
  }

  lemma RunHttp(c: Conn)
    requires c.stop.Go? && c.p.state.ReqHttpStart? && c.p.nread + 5 <= MAX_HEADER_SIZE
    ensures Run(c, HTTP) == Conn(c.p.(nread := c.p.nread + 5, state := ReqFirstHttpMajor), c.trace, Go, c.used + 5)
  {
    hide Run, Step;
    RunNothing(c);
    assert HTTP[..0] == [] && HTTP[..5] == HTTP;
    StepHttp(c.p);
    StepSlash(c.p);
    RunNext(c, HTTP, 0); RunNext(c, HTTP, 1); RunNext(c, HTTP, 2); RunNext(c, HTTP, 3); RunNext(c, HTTP, 4);
  }

  lemma DigitsSnoc(s: seq<Byte>)
    requires IsVersion(s)
    ensures s != [] && s == s[..|s| - 1] + [s[|s| - 1]] && NumberOf(s) <= 999 && IsNum(s[|s| - 1])
    ensures |s| == 1 ==> s == [s[0]] && s[..|s| - 1] == [] && NumberOf(s) == DigitOf(s[0])
    ensures |s| > 1 ==>
      IsVersion(s[..|s| - 1]) && NumberOf(s) == NumberOf(s[..|s| - 1]) * 10 + DigitOf(s[|s| - 1])
  {
    hide NumberOf, AreDigits;
    ValueSnoc(s);
    DigitsFront(s);
    SnocIs(s);
  }

  lemma DigitsFront(s: seq<Byte>)
    requires s != [] && AreDigits(s)
    ensures AreDigits(s[..|s| - 1]) && 48 <= s[|s| - 1] < 58
  {}

  lemma SnocIs(s: seq<Byte>)
    requires s != []
    ensures s == s[..|s| - 1] + [s[|s| - 1]] && (|s| == 1 ==> s == [s[0]] && s[..|s| - 1] == [])
  {}

  lemma ValueSnoc(s: seq<Byte>)
    requires s != []
    ensures NumberOf(s) == NumberOf(s[..|s| - 1]) * 10 + DigitOf(s[|s| - 1]) && NumberOf([]) == 0
  {}

  lemma Quiet(c: Conn, ch: Byte)
    requires c.stop.Go?
    ensures var o := Step(c.p, ch);
      o.calls.NoCall? && o.stop.Go? ==> Advance(c, ch) == Conn(o.p, c.trace, Go, c.used + 1)
  {
    hide Step;
  }

  lemma StepMajor(p: Parser, ch: Byte)
    requires IsNum(ch) && p.nread < MAX_HEADER_SIZE
    ensures p.state.ReqFirstHttpMajor? && ch != '0' as int ==>
      Step(p, ch) == Out(p.(nread := p.nread + 1, state := ReqHttpMajor, httpMajor := DigitOf(ch)), NoCall, Go)
    ensures p.state.ReqHttpMajor? && p.httpMajor * 10 + DigitOf(ch) <= 999 ==>
      Step(p, ch) == Out(p.(nread := p.nread + 1, httpMajor := p.httpMajor * 10 + DigitOf(ch)), NoCall, Go)
  {
    hide Step;
    if InVersion(p.state) { StepInVersion(p, ch); }
  }

  lemma StepMinor(p: Parser, ch: Byte)
    requires IsNum(ch) && p.nread < MAX_HEADER_SIZE
    ensures p.state.ReqFirstHttpMinor? ==>
      Step(p, ch) == Out(p.(nread := p.nread + 1, state := ReqHttpMinor, httpMinor := DigitOf(ch)), NoCall, Go)
    ensures p.state.ReqHttpMinor? && p.httpMinor * 10 + DigitOf(ch) <= 999 ==>
      Step(p, ch) == Out(p.(nread := p.nread + 1, httpMinor := p.httpMinor * 10 + DigitOf(ch)), NoCall, Go)
  {
    hide Step;
    if InVersion(p.state) { StepInVersion(p, ch); }
  }

  lemma {:induction false} RunMajor(c: Conn, s: seq<Byte>)
    requires c.stop.Go? && c.p.state.ReqFirstHttpMajor? && IsVersion(s) && s[0] != '0' as int
    requires c.p.nread + |s| <= MAX_HEADER_SIZE
    ensures Run(c, s) ==
      Conn(c.p.(nread := c.p.nread + |s|, state := ReqHttpMajor, httpMajor := NumberOf(s)), c.trace, Go, c.used + |s|)
    decreases |s|
  {
    hide Step, Run, Emit, NumberOf, IsVersion, Advance;
    DigitsSnoc(s);
    var front, ch := s[..|s| - 1], s[|s| - 1];
    if front == [] {
      FirstMajor(c, ch);
    } else {
      assert front[0] == s[0];
      RunMajor(c, front);
      NextMajor(Run(c, front), ch, NumberOf(front), NumberOf(s));
      RunSnoc(c, front, ch);
    }
  }

  lemma FirstMajor(c: Conn, ch: Byte)
    requires c.stop.Go? && c.p.state.ReqFirstHttpMajor? && IsNum(ch) && ch != '0' as int && c.p.nread < MAX_HEADER_SIZE
    ensures Run(c, [ch]) == Conn(c.p.(nread := c.p.nread + 1, state := ReqHttpMajor, httpMajor := DigitOf(ch)),
                                 c.trace, Go, c.used + 1)
  {
    hide Step, Run, Advance;
    RunOne(c, ch);
    StepMajor(c.p, ch);
    Quiet(c, ch);
  }

  lemma NextMajor(d: Conn, ch: Byte, v: nat, w: nat)
    requires d.stop.Go? && d.p.state.ReqHttpMajor? && d.p.nread < MAX_HEADER_SIZE && d.p.httpMajor == v
    requires IsNum(ch) && w == v * 10 + DigitOf(ch) <= 999
    ensures Advance(d, ch) == Conn(d.p.(nread := d.p.nread + 1, httpMajor := w), d.trace, Go, d.used + 1)
  {
    hide Step, Advance;
    StepMajor(d.p, ch);
    Quiet(d, ch);
  }

  lemma {:induction false} RunMinor(c: Conn, s: seq<Byte>)
    requires c.stop.Go? && c.p.state.ReqFirstHttpMinor? && IsVersion(s) && c.p.nread + |s| <= MAX_HEADER_SIZE
    ensures Run(c, s) ==
      Conn(c.p.(nread := c.p.nread + |s|, state := ReqHttpMinor, httpMinor := NumberOf(s)), c.trace, Go, c.used + |s|)
    decreases |s|
  {
    hide Step, Run, Emit, NumberOf, IsVersion, Advance;
    DigitsSnoc(s);
    var front, ch := s[..|s| - 1], s[|s| - 1];
    if front == [] {
      FirstMinor(c, ch);
    } else {
      RunMinor(c, front);
      NextMinor(Run(c, front), ch, NumberOf(front), NumberOf(s));
      RunSnoc(c, front, ch);
    }
  }

  lemma FirstMinor(c: Conn, ch: Byte)
    requires c.stop.Go? && c.p.state.ReqFirstHttpMinor? && IsNum(ch) && c.p.nread < MAX_HEADER_SIZE
    ensures Run(c, [ch]) == Conn(c.p.(nread := c.p.nread + 1, state := ReqHttpMinor, httpMinor := DigitOf(ch)),
                                 c.trace, Go, c.used + 1)
  {
    hide Step, Run, Advance;
    RunOne(c, ch);
    StepMinor(c.p, ch);
    Quiet(c, ch);
  }

  lemma NextMinor(d: Conn, ch: Byte, v: nat, w: nat)
    requires d.stop.Go? && d.p.state.ReqHttpMinor? && d.p.nread < MAX_HEADER_SIZE && d.p.httpMinor == v
    requires IsNum(ch) && w == v * 10 + DigitOf(ch) <= 999
    ensures Advance(d, ch) == Conn(d.p.(nread := d.p.nread + 1, httpMinor := w), d.trace, Go, d.used + 1)
  {
    hide Step, Advance;
    StepMinor(d.p, ch);
    Quiet(d, ch);
  }

  lemma StepDot(p: Parser)
    requires p.state.ReqHttpMajor? && p.nread < MAX_HEADER_SIZE
    ensures Step(p, 46) == Out(p.(nread := p.nread + 1, state := ReqFirstHttpMinor), NoCall, Go)
  {
    hide Step;
    StepInVersion(p, 46);
  }

  lemma StepLineEnds(p: Parser)
    requires p.state.ReqHttpMinor? && p.nread + 2 <= MAX_HEADER_SIZE
    ensures Step(p, CR) == Out(p.(nread := p.nread + 1, state := ReqLineAlmostDone), NoCall, Go)
    ensures Step(Step(p, CR).p, LF) == Out(p.(nread := p.nread + 2, state := HeaderFieldStart), NoCall, Go)
  {
    hide Step;
    StepInVersion(p, CR);
    StepInVersion(p.(nread := p.nread + 1, state := ReqLineAlmostDone), LF);
  }

  /** Method, target and version as a client sends them. */
  function RequestLine(w: seq<Byte>, t: seq<Byte>, major: seq<Byte>, minor: seq<Byte>): seq<Byte> {
    w + [SP] + t + [SP] + HTTP + major + [46] + minor + CRLF
  }

  /** The parser at the first header line of a request. */
  function AtHeaders(c: Conn, m: Method, t: seq<Byte>, major: nat, minor: nat, index: nat, n: nat): Conn {
    Conn(c.p.(flags := NO_FLAGS, contentLength := ULLONG_MAX, verb := m, index := index, nread := c.p.nread + n,
              state := HeaderFieldStart, httpMajor := major, httpMinor := minor),
      Emit(Emit(c.trace, OnMessageBegin), OnUrl(t)), Go, c.used + n)
  }

  ghost predicate IsRequestLine(w: seq<Byte>, m: Method, t: seq<Byte>, major: seq<Byte>, minor: seq<Byte>) {
    IsWord(w) && Means(w, m) && IsTarget(m, t) && IsVersion(major) && major[0] != '0' as int && IsVersion(minor)
  }

  lemma TargetNotEmpty(m: Method, t: seq<Byte>)
    requires IsTarget(m, t)
    ensures t != []
  {}

  lemma RunTarget(c: Conn, t: seq<Byte>)
    requires c.stop.Go? && c.p.state.ReqSpacesBeforeUrl? && IsTarget(c.p.verb, t)
    requires c.p.nread + |t| + 1 <= MAX_HEADER_SIZE
    ensures Run(c, t + [SP]) == Conn(c.p.(nread := c.p.nread + |t| + 1, state := ReqHttpStart),
                                     Emit(c.trace, OnUrl(t)), Go, c.used + |t| + 1)
  {
    hide Step, Run, Emit, UrlRead, IsTarget;
    TargetNotEmpty(c.p.verb, t);
    TargetRead(c.p.verb, t);
    RunUrl(c, t);
    RunSnoc(c, t, SP);
    StepEndOfTarget(Run(c, t).p);
  }

  lemma RunVersion(c: Conn, major: seq<Byte>, minor: seq<Byte>)
    requires c.stop.Go? && c.p.state.ReqHttpStart?
    requires IsVersion(major) && major[0] != '0' as int && IsVersion(minor)
    requires c.p.nread + |HTTP| + |major| + 1 + |minor| + 2 <= MAX_HEADER_SIZE
    ensures var n := |HTTP| + |major| + 1 + |minor| + 2;
      Run(c, HTTP + major + [46] + minor + CRLF) == Conn(
        c.p.(nread := c.p.nread + n, state := HeaderFieldStart, httpMajor := NumberOf(major),
             httpMinor := NumberOf(minor)),
        c.trace, Go, c.used + n)
  {
    hide Step, Run, IsVersion, NumberOf;
    RunHttp(c);
    RunConcat(c, HTTP, major);
    RunMajor(Run(c, HTTP), major);
    RunSnoc(c, HTTP + major, 46);
    StepDot(Run(c, HTTP + major).p);
    RunConcat(c, HTTP + major + [46], minor);
    RunMinor(Run(c, HTTP + major + [46]), minor);
    RunConcat(c, HTTP + major + [46] + minor, CRLF);
    var d := Run(c, HTTP + major + [46] + minor);
    RunTwo(d, CR, LF);
    StepLineEnds(d.p);
  }

  /** The line is taken with its method, its target as one callback, and its version. */
  lemma RunRequestLine(c: Conn, w: seq<Byte>, m: Method, t: seq<Byte>, major: seq<Byte>, minor: seq<Byte>)
    requires c.stop.Go? && c.p.state.StartReq? && IsRequestLine(w, m, t, major, minor)
    requires c.p.nread + |RequestLine(w, t, major, minor)| <= MAX_HEADER_SIZE
    ensures Run(c, RequestLine(w, t, major, minor)) ==
      AtHeaders(c, m, t, NumberOf(major), NumberOf(minor), |w| + 1, |RequestLine(w, t, major, minor)|)
  {
    hide Step, Run, Emit, IsWord, Means, IsTarget, IsVersion, NumberOf, HTTP;
    var a, b := w + [SP], HTTP + major + [46] + minor + CRLF;
    assert RequestLine(w, t, major, minor) == a + (t + [SP]) + b;
    CrlfLength();
    RunMethod(c, w, m);
    RunConcat(c, a, t + [SP]);
    RunTarget(Run(c, a), t);
    RunConcat(c, a + (t + [SP]), b);
    RunVersion(Run(c, a + (t + [SP])), major, minor);
  }

  lemma NameIsWord(name: string, m: Method)
    requires IsMethod(name, m)
    ensures IsWord(Octets(name)) && Means(Octets(name), m)
  {
    hide Means;
    MethodsRead(name, m);
    assert name == Text(m);
    Letters(m);
  }

  /** "GEX" is taken for GET: the third letter of most methods is not looked at. */
  lemma ThirdLetter()
    ensures Means(Octets("GEX"), GET)
  {
    var w := Octets("GEX");
    assert w[..1] == [71];
    ReadNext(w, 1);
    assert w[..3] == w;
    ReadNext(w, 2);
  }

  /** "M-SEARCH" is not taken for anything. */
  lemma NoSearch()
    ensures ReadMethod(Octets("M-SEARCH")).1 != OK
  {
    hide MethodChar, FirstMethod;
    var v := Octets("M-SEARCH");
    assert v[0] == 77 && v[1] == 45 && v[2] == 83 && v[3] == 69;
    SearchLetters();
    ReadOne(v);
    ReadNext(v, 1);
    ReadNext(v, 2);
    ReadNext(v, 3);
    FailsOn(v, 4);
  }

  lemma ReadOne(w: seq<Byte>)
    requires w != []
    ensures ReadMethod(w[..1]) == FirstMethod(w[0])
  {
    hide FirstMethod;
  }

  lemma SearchLetters()
    ensures FirstMethod(77) == (MKCOL, OK) && MethodChar(MKCOL, 1, 45) == (MSEARCH, OK)
    ensures MethodChar(MSEARCH, 2, 83) == (MSEARCH, OK) && MethodChar(MSEARCH, 3, 69).1 != OK
  {}

  lemma {:induction false} FailsOn(w: seq<Byte>, k: nat)
    requires 0 < k <= |w| && ReadMethod(w[..k]).1 != OK
    ensures ReadMethod(w).1 != OK
    decreases |w| - k
  {
    hide MethodChar;
    if k == |w| {
      assert w[..k] == w;
    } else {
      ReadNext(w, k);
      FailsOn(w, k + 1);
    }
  }
}
