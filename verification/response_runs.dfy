/** What becomes of a response, as a function of the answers of writev: which items go out, and when it stops. */
module ResponseRuns {
  import opened Bytes
  import opened Pieces
  import opened HttpRuns
  import opened Options

  datatype Status = StatusOk | StatusSuspend | StatusError

  /** What writev is to answer when there is something to write: how much it takes, or an error. */
  datatype Answer = Takes(n: nat) | WouldBlock | Broken

  /** The octets taken of n: at least one, at most all. */
  function Part(a: Answer, n: nat): nat
    requires a.Takes?
  {
    if a.n == 0 && n > 0 then 1 else if a.n > n then n else a.n
  }

  /** Writing n octets until they are out or an error comes: the status, how many went out, and the answers left. */
  function Out(answers: seq<Answer>, n: nat): (r: (Status, nat, seq<Answer>))
    ensures r.1 <= n && (r.0.StatusOk? <==> r.1 == n)
    decreases n
  {
    if n == 0 then (StatusOk, 0, answers)
    else if answers == [] then (StatusOk, n, [])
    else
      match answers[0]
      case WouldBlock => (StatusSuspend, 0, answers[1..])
      case Broken => (StatusError, 0, answers[1..])
      case Takes(_) =>
        var w := Part(answers[0], n);
        var r := Out(answers[1..], n - w);
        (r.0, w + r.1, r.2)
  }

  /** Status and answers left of Out. */
  function Result(answers: seq<Answer>, n: nat): (Status, seq<Answer>) {
    (Out(answers, n).0, Out(answers, n).2)
  }

  /** The body bytes of the items on the wire. */
  function Frame(chunked: bool, x: seq<Byte>): seq<Byte> {
    if chunked then Chunk(x) else x
  }

  function Frames(chunked: bool, xs: seq<seq<Byte>>): seq<Byte> {
    if chunked then Chunks(xs) else Flatten(xs)
  }

  lemma FramesSnoc(chunked: bool, xs: seq<seq<Byte>>, x: seq<Byte>)
    ensures Frames(chunked, xs + [x]) == Frames(chunked, xs) + Frame(chunked, x)
  {
    assert (xs + [x])[..|xs|] == xs;
  }

  /** How a body is sent: in chunks, or with a declared length. */
  datatype Plan = Plan(chunked: bool, limit: Option<nat>)

  /** A point of a response: its status, the status of the last write, the items taken from the iterator and those
      it has still to yield, write_bytes, the octets sent, those of the bucket held back and its total_size,
      the answers to come, and which writes have been held back: 0 for the header block and the first item, then
      the number of the item. */
  datatype Point = Point(
    status: Status,
    last: Status,
    taken: seq<seq<Byte>>,
    items: seq<seq<Byte>>,
    written: nat,
    out: int,
    held: nat,
    size: nat,
    answers: seq<Answer>,
    paused: set<nat>
  )

  /** write_headers: the header block, of head octets, with the first item. */
  function Opened(answers: seq<Answer>, head: nat, taken: seq<seq<Byte>>, items: seq<seq<Byte>>, chunked: bool): Point {
    var n := head + |Frames(chunked, taken)|;
    var (s, k, rest) := Out(answers, n);
    match s
    case StatusOk => Point(s, s, taken, items, |Flatten(taken)|, k, 0, 0, rest, {})
    case StatusSuspend => Point(s, s, taken, items, 0, k, n - k, n, rest, {0})
    case StatusError => Point(s, s, taken, items, 0, k, 0, 0, rest, {})
  }

  /** One more item of process_write. */
  function Sent(p: Point, chunked: bool): Point
    requires p.items != []
  {
    var x := p.items[0];
    var n := |Frame(chunked, x)|;
    var (s, k, rest) := Out(p.answers, n);
    var q := p.(status := s, last := s, taken := p.taken + [x], items := p.items[1..], out := p.out + k,
                answers := rest);
    match s
    case StatusOk => q.(written := p.written + |x|)
    case StatusSuspend => q.(held := n - k, size := n, paused := p.paused + {|p.taken|})
    case StatusError => q.(held := n - k, size := n)
  }

  predicate Reached(plan: Plan, written: nat) {
    plan.limit.Some? && plan.limit.value <= written
  }

  /** The end of process_write, which does not look at the status of its last write. */
  function Ending(p: Point, chunked: bool): Point {
    if chunked then
      var (s, k, rest) := Out(p.answers, |LastChunk|);
      p.(status := StatusOk, last := s, out := p.out + k, answers := rest)
    else p.(status := StatusOk, last := StatusOk)
  }

  /** process_write. */
  function Write(p: Point, plan: Plan): Point
    decreases |p.items|
  {
    if p.items == [] then Ending(p, plan.chunked)
    else
      var q := Sent(p, plan.chunked);
      if !q.status.StatusOk? then q
      else if Reached(plan, q.written) then Ending(q, plan.chunked)
      else Write(q, plan)
  }

  /** process_body after a suspension. */
  function Retry(p: Point, plan: Plan): Point {
    var (s, k, rest) := Out(p.answers, p.held);
    var q := p.(status := s, last := s, out := p.out + k, answers := rest);
    match s
    case StatusOk => Write(q.(written := p.written + p.size, held := 0, size := 0), plan)
    case StatusSuspend => q.(held := p.held - k)
    case StatusError => q.(held := 0, size := 0)
  }

  /** For as long as the response is suspended and resumed. */
  function Resume(p: Point, plan: Plan, resumes: nat): Point
    decreases resumes
  {
    if p.status.StatusSuspend? && resumes > 0 then Resume(Retry(p, plan), plan, resumes - 1) else p
  }

  function Start(answers: seq<Answer>, head: nat, all: seq<seq<Byte>>, plan: Plan): Point {
    var k := if all == [] then 0 else 1;
    var p := Opened(answers, head, all[..k], all[k..], plan.chunked);
    if p.status.StatusOk? then Write(p, plan) else p
  }

  /** A whole response to the items all, resumed that often. */
  function Whole(answers: seq<Answer>, head: nat, all: seq<seq<Byte>>, plan: Plan, resumes: nat): Point {
    Resume(Start(answers, head, all, plan), plan, resumes)
  }

  // ---- which items go out ----

  /** The response stops behind item j: it is not the first, its write was not held back, and the items up to it,
      with the header block if that was held back, reach the declared length. */
  predicate Stops(all: seq<seq<Byte>>, head: nat, limit: Option<nat>, paused: set<nat>, j: nat)
    requires j < |all|
  {
    && j > 0 && j !in paused && limit.Some?
    && limit.value <= |Flatten(all[..j + 1])| + if 0 in paused then head else 0
  }

  ghost predicate NoStop(p: Point, all: seq<seq<Byte>>, head: nat, limit: Option<nat>, k: int)
    requires k <= |all|
  {
    forall j: nat :: j < k ==> !Stops(all, head, limit, p.paused, j)
  }

  /** What holds all along; k items have been passed without stopping. */
  ghost predicate Along(p: Point, all: seq<seq<Byte>>, head: nat, plan: Plan, k: int) {
    && p.taken + p.items == all && (p.taken != [] || p.items == [])
    && (forall i :: i in p.paused ==> i == 0 || i < |p.taken|)
    && (plan.limit.Some? ==>
          !plan.chunked && p.written + p.size == |Flatten(p.taken)| + if 0 in p.paused then head else 0)
    && k <= |p.taken| && NoStop(p, all, head, plan.limit, k)
  }

  /** A point of a response that is not broken off. */
  ghost predicate Consistent(p: Point, all: seq<seq<Byte>>, head: nat, plan: Plan) {
    match p.status
    case StatusSuspend => Along(p, all, head, plan, |p.taken|)
    case StatusOk =>
      && Along(p, all, head, plan, |p.taken| - 1)
      && (p.items != [] ==> p.taken != [] && Stops(all, head, plan.limit, p.paused, |p.taken| - 1))
    case StatusError => p.taken + p.items == all
  }

  lemma FlattenSize(xs: seq<seq<Byte>>, x: seq<Byte>)
    ensures |Flatten(xs + [x])| == |Flatten(xs)| + |x|
  {
    FlattenConcat(xs, [x]);
    FlattenOne(x);
  }

  lemma {:induction false} WriteGoes(p: Point, all: seq<seq<Byte>>, head: nat, plan: Plan)
    requires Along(p, all, head, plan, |p.taken|) && p.held == 0 && p.size == 0
    ensures Consistent(Write(p, plan), all, head, plan)
    decreases |p.items|
  {
    hide Out, Frame;
    if p.items != [] {
      var q := Sent(p, plan.chunked);
      SentGoes(p, all, head, plan);
      if q.status.StatusOk? && !Reached(plan, q.written) { WriteGoes(q, all, head, plan); }
    }
  }

  lemma SentGoes(p: Point, all: seq<seq<Byte>>, head: nat, plan: Plan)
    requires Along(p, all, head, plan, |p.taken|) && p.held == 0 && p.size == 0 && p.items != []
    ensures var q := Sent(p, plan.chunked);
      && Along(q.(status := StatusSuspend), all, head, plan, |q.taken| - 1)
      && (q.status.StatusOk? ==> q.held == 0 && q.size == 0)
      && (q.status.StatusOk? ==> (Reached(plan, q.written) <==> Stops(all, head, plan.limit, q.paused, |q.taken| - 1)))
      && (q.status.StatusSuspend? ==> !Stops(all, head, plan.limit, q.paused, |q.taken| - 1))
  {
    hide Out, Flatten, Chunk;
    var q := Sent(p, plan.chunked);
    FlattenSize(p.taken, p.items[0]);
    assert q.taken + q.items == all;
    assert all[..|q.taken|] == q.taken;
    forall j: nat | j < |q.taken| - 1 ensures !Stops(all, head, plan.limit, q.paused, j) {
      assert !Stops(all, head, plan.limit, p.paused, j);
    }
  }

  lemma RetryGoes(p: Point, all: seq<seq<Byte>>, head: nat, plan: Plan)
    requires p.status.StatusSuspend? && Consistent(p, all, head, plan)
    ensures Consistent(Retry(p, plan), all, head, plan)
  {
    hide Write, Out, Stops;
    var (s, k, rest) := Out(p.answers, p.held);
    var q := p.(status := s, last := s, out := p.out + k, answers := rest);
    if s.StatusOk? { WriteGoes(q.(written := p.written + p.size, held := 0, size := 0), all, head, plan); }
  }

  lemma {:induction false} ResumeGoes(p: Point, all: seq<seq<Byte>>, head: nat, plan: Plan, resumes: nat)
    requires Consistent(p, all, head, plan)
    ensures Consistent(Resume(p, plan, resumes), all, head, plan)
    decreases resumes
  {
    hide Consistent, Retry;
    if p.status.StatusSuspend? && resumes > 0 {
      RetryGoes(p, all, head, plan);
      ResumeGoes(Retry(p, plan), all, head, plan, resumes - 1);
    }
  }

  lemma OpenedGoes(answers: seq<Answer>, head: nat, taken: seq<seq<Byte>>, items: seq<seq<Byte>>, plan: Plan)
    requires |taken| == 1 || (taken == [] && items == [])
    requires plan.limit.Some? ==> !plan.chunked
    ensures var p := Opened(answers, head, taken, items, plan.chunked);
      && p.taken == taken && p.items == items
      && (!p.status.StatusError? ==> Along(p, taken + items, head, plan, |taken|))
      && (p.status.StatusOk? ==> p.held == 0 && p.size == 0)
  {
    hide Out, Flatten;
  }

  lemma StartGoes(answers: seq<Answer>, head: nat, all: seq<seq<Byte>>, plan: Plan)
    requires plan.limit.Some? ==> !plan.chunked
    ensures Consistent(Start(answers, head, all, plan), all, head, plan)
  {
    hide Write, Opened;
    var k := if all == [] then 0 else 1;
    assert all[..k] + all[k..] == all;
    OpenedGoes(answers, head, all[..k], all[k..], plan);
    var p := Opened(answers, head, all[..k], all[k..], plan.chunked);
    if p.status.StatusOk? { WriteGoes(p, all, head, plan); }
  }

  /** Which items a finished response has sent: those up to the first behind which it stops, or all if there is none. */
  lemma Exactly(answers: seq<Answer>, head: nat, all: seq<seq<Byte>>, plan: Plan, resumes: nat)
    requires plan.limit.Some? ==> !plan.chunked
    ensures var p := Whole(answers, head, all, plan, resumes);
      && p.taken + p.items == all
      && (p.status.StatusOk? ==>
            && (forall j: nat :: j < |p.taken| - 1 ==> !Stops(all, head, plan.limit, p.paused, j))
            && (p.items != [] ==> p.taken != [] && Stops(all, head, plan.limit, p.paused, |p.taken| - 1))
            && (p.items == [] <==> forall j: nat :: j < |all| - 1 ==> !Stops(all, head, plan.limit, p.paused, j)))
  {
    hide Start, Resume, Stops;
    var p := Whole(answers, head, all, plan, resumes);
    StartGoes(answers, head, all, plan);
    ResumeGoes(Start(answers, head, all, plan), all, head, plan, resumes);
  }

  /** Where the application keeps to the length it declares, a finished response whose header block was not held
      back has sent every octet of its body. */
  lemma Honest(answers: seq<Answer>, head: nat, all: seq<seq<Byte>>, plan: Plan, resumes: nat)
    requires plan.limit == Some(|Flatten(all)|) && !plan.chunked
    ensures var p := Whole(answers, head, all, plan, resumes);
      p.status.StatusOk? && 0 !in p.paused ==> Flatten(p.items) == [] && Flatten(p.taken) == Flatten(all)
  {
    hide Whole, Flatten;
    Exactly(answers, head, all, plan, resumes);
    var p := Whole(answers, head, all, plan, resumes);
    FlattenConcat(p.taken, p.items);
    NothingAfter(all);
    if p.status.StatusOk? && 0 !in p.paused {
      if p.items == [] {
        assert p.taken == all;
        NothingAfter(p.items);
        assert p.items[|p.items|..] == p.items;
      } else {
        assert all[..|p.taken|] == p.taken;
        assert Flatten(p.taken) + [] == Flatten(p.taken);
      }
    }
  }

  // ---- when it suspends, fails or ends ----

  function Blocks(answers: seq<Answer>): nat {
    if answers == [] then 0 else Blocks(answers[1..]) + if answers[0].WouldBlock? then 1 else 0
  }

  /** What a stretch of writes that ends with the status s makes of the answers. */
  ghost predicate Used(answers: seq<Answer>, s: Status, rest: seq<Answer>) {
    && Blocks(rest) + (if s.StatusSuspend? then 1 else 0) <= Blocks(answers)
    && (forall a :: a in rest ==> a in answers)
    && (s.StatusError? ==> Broken in answers)
  }

  lemma {:induction false} OutUses(answers: seq<Answer>, n: nat)
    ensures Used(answers, Out(answers, n).0, Out(answers, n).2)
    decreases n
  {
    if n > 0 && answers != [] && answers[0].Takes? { OutUses(answers[1..], n - Part(answers[0], n)); }
  }

  lemma UsedMore(a: seq<Answer>, s: Status, b: seq<Answer>, t: Status, c: seq<Answer>)
    requires Used(a, s, b) && Used(b, t, c)
    ensures Used(a, t, c)
  {}

  lemma {:induction false} WriteUses(p: Point, plan: Plan)
    ensures Used(p.answers, Write(p, plan).status, Write(p, plan).answers)
    decreases |p.items|
  {
    hide Out, Used, Frame;
    OutUses(p.answers, |LastChunk|);
    if p.items == [] {
      Swallowed(p, plan.chunked);
    } else {
      OutUses(p.answers, |Frame(plan.chunked, p.items[0])|);
      var q := Sent(p, plan.chunked);
      if q.status.StatusOk? {
        if Reached(plan, q.written) { Swallowed(q, plan.chunked); } else { WriteUses(q, plan); }
        UsedMore(p.answers, q.status, q.answers, Write(p, plan).status, Write(p, plan).answers);
      }
    }
  }

  lemma Swallowed(p: Point, chunked: bool)
    ensures Used(p.answers, StatusOk, Ending(p, chunked).answers)
  {
    hide Out;
    OutUses(p.answers, |LastChunk|);
  }

  lemma RetryUses(p: Point, plan: Plan)
    ensures Used(p.answers, Retry(p, plan).status, Retry(p, plan).answers)
  {
    hide Out, Used, Write;
    OutUses(p.answers, p.held);
    var (s, k, rest) := Out(p.answers, p.held);
    var q := p.(status := s, last := s, out := p.out + k, answers := rest, written := p.written + p.size,
                held := 0, size := 0);
    if s.StatusOk? {
      WriteUses(q, plan);
      UsedMore(p.answers, s, rest, Write(q, plan).status, Write(q, plan).answers);
    }
  }

  lemma StartUses(answers: seq<Answer>, head: nat, all: seq<seq<Byte>>, plan: Plan)
    ensures var p := Start(answers, head, all, plan); Used(answers, p.status, p.answers)
  {
    hide Out, Used, Write, Frames;
    var k := if all == [] then 0 else 1;
    OutUses(answers, head + |Frames(plan.chunked, all[..k])|);
    var p := Opened(answers, head, all[..k], all[k..], plan.chunked);
    if p.status.StatusOk? {
      WriteUses(p, plan);
      UsedMore(answers, p.status, p.answers, Write(p, plan).status, Write(p, plan).answers);
    }
  }

  lemma {:induction false} ResumeUses(p: Point, plan: Plan, resumes: nat)
    ensures var r := Resume(p, plan, resumes);
      && (r.status.StatusError? ==> p.status.StatusError? || Broken in p.answers)
      && (r.status.StatusSuspend? ==> p.status.StatusSuspend? && Blocks(p.answers) >= resumes)
    decreases resumes
  {
    hide Retry;
    if p.status.StatusSuspend? && resumes > 0 {
      RetryUses(p, plan);
      ResumeUses(Retry(p, plan), plan, resumes - 1);
    }
  }

  /** A response fails only on an error of writev, and is still suspended after that many resumptions only if the
      socket would have blocked more often. */
  lemma Finishes(answers: seq<Answer>, head: nat, all: seq<seq<Byte>>, plan: Plan, resumes: nat)
    ensures var p := Whole(answers, head, all, plan, resumes);
      && (p.status.StatusError? ==> Broken in answers)
      && (p.status.StatusSuspend? ==> Blocks(answers) > resumes)
      && (Broken !in answers && Blocks(answers) <= resumes ==> p.status.StatusOk?)
  {
    hide Start, Resume, Blocks;
    StartUses(answers, head, all, plan);
    ResumeUses(Start(answers, head, all, plan), plan, resumes);
  }

  // ---- a socket that never blocks ----

  predicate Flowing(answers: seq<Answer>) {
    forall a :: a in answers ==> a.Takes?
  }

  lemma {:induction false} OutFlows(answers: seq<Answer>, n: nat)
    requires Flowing(answers)
    ensures Out(answers, n).0.StatusOk? && Flowing(Out(answers, n).2)
    decreases n
  {
    if n > 0 && answers != [] { OutFlows(answers[1..], n - Part(answers[0], n)); }
  }

  lemma {:induction false} WriteFlows(p: Point, plan: Plan)
    requires Flowing(p.answers)
    ensures var r := Write(p, plan); r.status.StatusOk? && r.last.StatusOk? && r.paused == p.paused
    decreases |p.items|
  {
    hide Out, Flowing, Frame;
    OutFlows(p.answers, |LastChunk|);
    if p.items != [] {
      OutFlows(p.answers, |Frame(plan.chunked, p.items[0])|);
      var q := Sent(p, plan.chunked);
      OutFlows(q.answers, |LastChunk|);
      if !Reached(plan, q.written) { WriteFlows(q, plan); }
    }
  }

  /** Then the response ends well in one go, and all items are out exactly if there are at most two, or those before
      the last stay below the declared length: the first two go out whatever it is. */
  lemma InOneGo(answers: seq<Answer>, head: nat, all: seq<seq<Byte>>, plan: Plan, resumes: nat)
    requires Flowing(answers) && (plan.limit.Some? ==> !plan.chunked)
    ensures var p := Whole(answers, head, all, plan, resumes);
      && p.status.StatusOk? && p.last.StatusOk? && p.paused == {}
      && (p.items == [] <==> |all| <= 2 || plan.limit == None || |Flatten(all[..|all| - 1])| < plan.limit.value)
  {
    hide Write, Out, Flatten, Flowing;
    var k := if all == [] then 0 else 1;
    OutFlows(answers, head + |Frames(plan.chunked, all[..k])|);
    var p := Opened(answers, head, all[..k], all[k..], plan.chunked);
    WriteFlows(p, plan);
    Exactly(answers, head, all, plan, resumes);
    forall j: nat | j < |all| - 1 && Stops(all, head, plan.limit, {}, j)
      ensures plan.limit.value <= |Flatten(all[..|all| - 1])|
    {
      assert all[..|all| - 1] == all[..j + 1] + all[j + 1..|all| - 1];
      FlattenConcat(all[..j + 1], all[j + 1..|all| - 1]);
    }
    if |all| > 2 && plan.limit.Some? {
      assert Stops(all, head, plan.limit, {}, |all| - 2) <==> plan.limit.value <= |Flatten(all[..|all| - 1])|;
    }
  }

  // ---- two responses ----

  lemma FlattenLetters()
    ensures Flatten([[97]]) == [97] && Flatten([[97], [98]]) == [97, 98]
  {
    FlattenOne([97]);
    FlattenOne([98]);
    FlattenConcat([[97]], [[98]]);
    assert [[97]] + [[98]] == [[97], [98]];
  }

  /** Content-Length: 3 and three items of one octet.  The socket would block at the header block and then takes
      everything: resumed once, the response ends well behind the second item, and the third is never sent. */
  lemma ItemLost(head: nat)
    requires head > 1
    ensures var p := Whole([WouldBlock], head, [[97], [98], [99]], Plan(false, Some(3)), 1);
      p.status.StatusOk? && p.last.StatusOk? && p.taken == [[97], [98]] && p.items == [[99]] && p.out == head + 2
  {
    FlattenLetters();
    var all: seq<seq<Byte>> := [[97], [98], [99]];
    assert all[..1] == [[97]] && all[1..] == [[98], [99]] && all[1..][1..] == [[99]];
    var plan := Plan(false, Some(3));
    var p := Start([WouldBlock], head, all, plan);
    assert p == Point(StatusSuspend, StatusSuspend, [[97]], [[98], [99]], 0, 0, head + 1, head + 1, [], {0});
    var q := p.(status := StatusOk, last := StatusOk, out := head + 1, written := head + 1, held := 0, size := 0);
    assert Retry(p, plan) == Write(q, plan);
    assert Write(q, plan) == q.(taken := [[97], [98]], items := [[99]], written := head + 2, out := head + 2);
  }

  /** Content-Length: 1 and two items of one octet, to a socket that takes everything: both are sent, since the first
      item is not looked at. */
  lemma TooMuch(head: nat)
    ensures var p := Whole([], head, [[97], [98]], Plan(false, Some(1)), 0);
      p.status.StatusOk? && p.items == [] && p.out == head + 2
  {
    FlattenLetters();
    var all: seq<seq<Byte>> := [[97], [98]];
    assert all[..1] == [[97]] && all[1..] == [[98]] && all[1..][1..] == [];
    var plan := Plan(false, Some(1));
    var p := Opened([], head, all[..1], all[1..], false);
    assert p == Point(StatusOk, StatusOk, [[97]], [[98]], 1, head + 1, 0, 0, [], {});
  }

  /** One item in chunks, to a socket that takes the first write whole and would then block: the response ends well
      with the five octets of the last chunk unsent and nothing held back for another try. */
  lemma TailLost(head: nat)
    ensures var p := Whole([Takes(head + |Chunk([65])|), WouldBlock], head, [[65]], Plan(true, None), 0);
      p.status.StatusOk? && p.last.StatusSuspend? && p.items == [] && p.out == head + |Chunk([65])| && p.held == 0
  {
    hide Chunk, LastChunk;
    var all: seq<seq<Byte>> := [[65]];
    var n := head + |Chunk([65])|;
    assert all[..1] == all && all[1..] == [];
    OneChunk(all);
    LastChunkLength();
    assert [Takes(n), WouldBlock][1..] == [WouldBlock] && [WouldBlock][1..] == [];
    assert Out([WouldBlock], 0) == (StatusOk, 0, [WouldBlock]);
    assert Out([WouldBlock], |LastChunk|) == (StatusSuspend, 0, []);
    ChunkNotEmpty([65]);
    assert Out([Takes(n), WouldBlock], n) == (StatusOk, n, [WouldBlock]);
    var p := Opened([Takes(n), WouldBlock], head, all, [], true);
    assert p.status.StatusOk? && p.answers == [WouldBlock];
  }

  lemma OneChunk(all: seq<seq<Byte>>)
    requires |all| == 1
    ensures Chunks(all) == Chunk(all[0])
  {
    hide Chunk;
    assert all[..0] == [] && Chunks(all) == [] + Chunk(all[0]);
  }

  lemma ChunkNotEmpty(x: seq<Byte>)
    ensures |Chunk(x)| > 0
  {
    hide Hex;
  }

  // ---- the same, in steps ----

  lemma WholeIs(answers: seq<Answer>, head: nat, all: seq<seq<Byte>>, plan: Plan, resumes: nat)
    ensures Whole(answers, head, all, plan, resumes) == Resume(Start(answers, head, all, plan), plan, resumes)
  {}

  lemma ResumeOne(p: Point, plan: Plan, n: nat)
    requires p.status.StatusSuspend? && n > 0
    ensures Resume(p, plan, n) == Resume(Retry(p.(last := StatusSuspend), plan), plan, n - 1)
  {
    hide Out, Write;
  }

  lemma ResumeNone(p: Point, plan: Plan, n: nat)
    requires !p.status.StatusSuspend? || n == 0
    ensures Resume(p, plan, n) == p
  {}
}
