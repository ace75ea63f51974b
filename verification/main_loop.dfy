/** The main loop: delayed calls, registered descriptors, and the counter that keeps the loop going. */
module MainLoop {
  import opened TimerHeap

  /** The callback a descriptor is registered with. */
  datatype Handler =
    | Accepting  // accept_callback
    | Reading    // read_callback
    | Resuming   // trampoline_callback
    | Expiring   // timeout_error_callback
    | Checking   // timeout_callback
    | Stopping   // kill_callback

  /** The descriptors that count as work: all but the shutdown timer's. */
  function Work(h: map<int, Handler>): set<int> {
    set fd | fd in h && h[fd] != Stopping
  }

  lemma WorkAdd(h: map<int, Handler>, fd: int, x: Handler)
    requires x != Stopping
    ensures |Work(h[fd := x])| == |Work(h)| + if fd in Work(h) then 0 else 1
  {
    assert Work(h[fd := x]) == Work(h) + {fd};
    if fd in Work(h) { assert Work(h) + {fd} == Work(h); }
  }

  lemma WorkDel(h: map<int, Handler>, fd: int)
    ensures |Work(h - {fd})| == |Work(h)| - if fd in Work(h) then 1 else 0
  {
    assert Work(h - {fd}) == Work(h) - {fd};
  }

  lemma NoWork()
    ensures Work(map[]) == {}
  {}

  lemma InWork(h: map<int, Handler>, fd: int)
    ensures fd in Work(h) <==> fd in h && h[fd] != Stopping
  {}

  lemma WorkStop(h: map<int, Handler>, fd: int)
    requires fd !in h
    ensures Work(h[fd := Stopping]) == Work(h)
  {}

  /** Conversion of a long to an int. */
  function IntOf(x: int): (r: int)
    ensures -0x8000_0000 <= r < 0x8000_0000
    ensures -0x8000_0000 <= x < 0x8000_0000 ==> r == x
  {
    (x + 0x8000_0000) % 0x1_0000_0000 - 0x8000_0000
  }

  /** schedule_call passes its delay on as an int: longer delays are not the ones asked for. */
  lemma DelayKept(seconds: nat)
    ensures IntOf(seconds) == seconds <==> seconds < 0x8000_0000
    ensures 0x8000_0000 <= seconds < 0x1_0000_0000 ==> IntOf(seconds) < 0
    ensures seconds == 0x1_0000_0000 ==> IntOf(seconds) == 0
  {}

  /** The timers of a queue that are due, with their multiplicity. */
  ghost function Due(m: multiset<Timer>, now: int): multiset<Timer>
    decreases |m|
  {
    if m == multiset{} then multiset{}
    else
      var t :| t in m;
      Due(m - multiset{t}, now) + if t.seconds <= now then multiset{t} else multiset{}
  }

  lemma {:induction false} DueWithin(m: multiset<Timer>, now: int)
    ensures Due(m, now) <= m
    decreases |m|
  {
    if m != multiset{} {
      var u :| u in m
        && Due(m, now) == Due(m - multiset{u}, now) + if u.seconds <= now then multiset{u} else multiset{};
      DueWithin(m - multiset{u}, now);
    }
  }

  lemma SameWithin(a: multiset<Timer>, b: multiset<Timer>, m: multiset<Timer>)
    requires a <= m && b <= m && forall t :: t in m ==> a[t] == b[t]
    ensures a == b
  {}

  lemma {:induction false} DueCount(m: multiset<Timer>, now: int, t: Timer)
    ensures Due(m, now)[t] == if t.seconds <= now then m[t] else 0
    decreases |m|
  {
    if m != multiset{} {
      var u :| u in m
        && Due(m, now) == Due(m - multiset{u}, now) + if u.seconds <= now then multiset{u} else multiset{};
      DueCount(m - multiset{u}, now, t);
    }
  }

  predicate Queued(pendings: seq<Timer>, items: multiset<Timer>, known: set<Timer>) {
    (forall t :: t in pendings ==> t in known) && (forall t :: t in items ==> t in known)
  }

  /** Until the server is told to stop its listeners accept; after that only the first one may be
      registered, for the shutdown timer. */
  predicate Registered(listeners: seq<int>, maxFd: int, stopped: bool, handlers: map<int, Handler>) {
    && (forall i :: 0 <= i < |listeners| ==> 0 <= listeners[i] < maxFd)
    && (forall i, j :: 0 <= i < j < |listeners| ==> listeners[i] != listeners[j])
    && (!stopped ==> forall fd :: fd in listeners ==> fd in handlers && handlers[fd] == Accepting)
    && (!stopped ==> forall fd :: fd in handlers ==> handlers[fd] != Stopping)
    && (stopped ==> forall fd :: fd in handlers && (handlers[fd] == Stopping || fd in listeners) ==>
      handlers[fd] == Stopping && |listeners| > 0 && fd == listeners[0])
  }

  /** What a run of callbacks may change, as a value. */
  datatype Snapshot = Snapshot(
    known: set<Timer>,
    called: set<Timer>,
    ran: set<Timer>,
    items: multiset<Timer>,
    pendings: seq<Timer>,
    clock: int,
    running: bool,
    stopped: bool,
    errors: nat,
    cancels: nat,
    eager: nat,
    hasty: nat,
    mayStop: bool,
    mayBreak: bool
  )

  /** Time goes on: no timer is forgotten, none called is called again; the loop ends only when the server has been
      stopped or a connection cannot be set up, and both only where the surroundings allow it. */
  ghost predicate After(a: Snapshot, b: Snapshot) {
    && a.known <= b.known && a.called <= b.called && a.ran <= b.ran
    && (forall t :: t in a.called && t in b.ran ==> t in a.ran)
    && a.clock <= b.clock
    && (b.running ==> a.running) && (a.stopped ==> b.stopped)
    && a.mayStop == b.mayStop && a.mayBreak == b.mayBreak
    && (a.running && !b.running ==> b.stopped || a.mayBreak) && (!a.stopped && b.stopped ==> a.mayStop)
    && a.errors <= b.errors && a.cancels <= b.cancels && b.eager <= a.eager && b.hasty <= a.hasty
  }

  /** Both queues only take new timers: the heap such as are not due yet, unless the delay was negative. */
  ghost predicate Grew(a: Snapshot, b: Snapshot) {
    && a.items <= b.items
    && (forall t :: t in b.items && a.items[t] < b.items[t] ==>
      t !in a.known && (t.seconds <= a.clock ==> b.hasty < a.hasty))
    && a.pendings <= b.pendings
    && (b.eager == a.eager ==> b.pendings == a.pendings)
  }

  /** The same, no timer's action having been run, and none marked as called but by a cancel: what
      application code does. */
  ghost predicate Grown(a: Snapshot, b: Snapshot) {
    Grew(a, b) && b.ran == a.ran && (b.cancels == a.cancels ==> b.called == a.called)
  }

  /** The timer taken out of its queue is called, and no other; an exception comes from its action. */
  ghost predicate RanOne(a: Snapshot, timer: Timer, b: Snapshot) {
    && After(a, b) && Grew(a, b) && b.running == a.running
    && timer in b.called && b.ran == a.ran + (if timer in a.called then {} else {timer})
    && (b.cancels == a.cancels ==> b.called == a.called + {timer})
    && b.errors <= a.errors + 1 && (b.errors > a.errors ==> timer in b.ran && timer !in a.ran)
  }

  ghost function CalledOf(known: set<Timer>): set<Timer>
    reads known
  {
    set t | t in known && t.called
  }

  ghost function RanOf(known: set<Timer>): set<Timer>
    reads known
  {
    set t | t in known && t.runs == 1
  }

  lemma CalledNew(known: set<Timer>, timer: Timer)
    requires !timer.called && timer.runs == 0
    ensures CalledOf(known + {timer}) == CalledOf(known - {timer})
    ensures RanOf(known + {timer}) == RanOf(known - {timer})
  {}

  ghost predicate Sound(known: set<Timer>)
    reads known
  {
    forall t :: t in known ==> t.Valid()
  }

  lemma SoundNew(known: set<Timer>, timer: Timer)
    requires timer.Valid() && Sound(known)
    ensures Sound(known + {timer})
  {}

  /** The action ran, then application code did what it likes. */
  lemma RanWith(a: Snapshot, timer: Timer, b: Snapshot, c: Snapshot)
    requires After(a, b) && Grew(a, b) && After(b, c) && Grown(b, c)
    requires b.called == a.called + {timer} && b.ran == a.ran + {timer} && timer !in a.ran && timer !in a.called
    requires a.running == b.running == c.running && a.errors == b.errors && c.errors <= b.errors + 1
      && a.cancels == b.cancels
    ensures RanOne(a, timer, c)
  {
    Onward(a, b, c);
  }

  lemma RanNot(a: Snapshot, timer: Timer, b: Snapshot)
    requires After(a, b) && Grew(a, b) && timer in a.called && b.called == a.called && b.ran == a.ran
    requires a.running == b.running && a.errors == b.errors
    ensures RanOne(a, timer, b)
  {}

  lemma NothingYet()
    ensures Queued([], multiset{}, {}) && Sound({})
  {}

  lemma LastQueued(pendings: seq<Timer>, items: multiset<Timer>, known: set<Timer>)
    requires Queued(pendings, items, known) && |pendings| > 0
    ensures pendings[|pendings| - 1] in known && Queued(pendings[..|pendings| - 1], items, known)
  {}

  lemma RanAfter(a: Snapshot, timer: Timer, b: Snapshot)
    requires RanOne(a, timer, b)
    ensures a.clock <= b.clock && a.running == b.running && b.hasty <= a.hasty
  {}

  lemma QueuedItems(pendings: seq<Timer>, items: multiset<Timer>, known: set<Timer>)
    requires Queued(pendings, items, known)
    ensures forall t :: t in items ==> t in known
  {}

  lemma StillQueued(a: Snapshot, b: Snapshot)
    requires Queued(a.pendings, a.items, a.known) && b.items <= a.items && b.pendings == a.pendings
      && b.known == a.known
    ensures Queued(b.pendings, b.items, b.known)
  {}

  lemma Onward(a: Snapshot, b: Snapshot, c: Snapshot)
    requires After(a, b) && After(b, c)
    ensures After(a, c)
    ensures Grew(a, b) && Grew(b, c) ==> Grew(a, c)
    ensures Grown(a, b) && Grown(b, c) ==> Grown(a, c)
  {
    if Grew(a, b) && Grew(b, c) {
      forall t | t in c.items && a.items[t] < c.items[t]
        ensures t !in a.known && (t.seconds <= a.clock ==> c.hasty < a.hasty)
      {
        if b.items[t] < c.items[t] { assert t !in b.known; } else { assert t in b.items; }
      }
      assert c.pendings[..|a.pendings|] == c.pendings[..|b.pendings|][..|a.pendings|];
    }
  }

  lemma Onwards(a: Snapshot)
    ensures After(a, a) && Grown(a, a)
  {}

  /** One new timer in one of the queues. */
  lemma Took(a: Snapshot, timer: Timer, b: Snapshot)
    requires timer !in a.known && a.clock >= 0
    requires b.known == a.known + {timer} && b.called == a.called && b.ran == a.ran
    requires b.clock == a.clock && b.running == a.running && b.stopped == a.stopped
    requires b.errors == a.errors && b.cancels == a.cancels && b.mayStop == a.mayStop && b.mayBreak == a.mayBreak
    requires || (b.eager == a.eager - 1 && b.pendings == a.pendings + [timer] && b.items == a.items
      && b.hasty == a.hasty)
             || (b.eager == a.eager && b.pendings == a.pendings && b.items == a.items + multiset{timer}
                 && b.hasty <= a.hasty && (timer.seconds <= a.clock ==> b.hasty < a.hasty))
    ensures After(a, b) && Grown(a, b)
    ensures Queued(a.pendings, a.items, a.known) ==> Queued(b.pendings, b.items, b.known)
  {}

  lemma Later(a: Snapshot, d: nat)
    ensures After(a, a.(clock := a.clock + d)) && Grown(a, a.(clock := a.clock + d))
  {}

  lemma Halted(a: Snapshot)
    requires a.stopped || a.mayBreak
    ensures After(a, a.(running := false)) && Grown(a, a.(running := false))
  {}

  lemma PoppedAfter(a: Snapshot, fired: seq<Timer>, b: Snapshot)
    requires Popped(a, fired, b)
    ensures After(a, b) && b.running == a.running && a.errors <= b.errors
  {}

  lemma FiredAfter(a: Snapshot, now: int, fired: seq<Timer>, b: Snapshot)
    requires Fired(a, now, fired, b)
    ensures After(a, b) && b.running == a.running && a.errors <= b.errors
  {}

  lemma OneMore(a: Snapshot)
    ensures After(a, a.(errors := a.errors + 1)) && Grown(a, a.(errors := a.errors + 1))
  {}

  lemma StopOnly(a: Snapshot)
    ensures Grown(a, a.(stopped := true)) && (a.stopped || a.mayStop ==> After(a, a.(stopped := true)))
  {}

  lemma WhyEnded(a: Snapshot, b: Snapshot)
    requires After(a, b)
    ensures a.running && !b.running ==> b.stopped || a.mayBreak
    ensures b.stopped && !a.stopped ==> a.mayStop
  {}

  /** The listeners count as work exactly until the server is stopped. */
  lemma ListenersCounted(listeners: seq<int>, maxFd: int, stopped: bool, handlers: map<int, Handler>)
    requires Registered(listeners, maxFd, stopped, handlers)
    ensures forall fd :: fd in listeners ==> 0 <= fd < maxFd && (fd in Work(handlers) <==> !stopped)
    ensures forall i :: 0 <= i < |listeners| ==> listeners[i] !in listeners[..i]
  {
    forall i | 0 <= i < |listeners| ensures listeners[i] !in listeners[..i] {
      forall j | 0 <= j < i ensures listeners[..i][j] != listeners[i] {}
    }
  }

  /** The first i listeners are stopped. */
  ghost predicate StoppedTo(listeners: seq<int>, i: nat, was: map<int, Handler>, h: map<int, Handler>)
    requires i <= |listeners|
  {
    && (forall fd :: fd !in listeners[..i] ==> (fd in h <==> fd in was) && (fd in h ==> h[fd] == was[fd]))
    && (forall fd :: fd in listeners[..i] ==> (fd in h <==> fd == listeners[0]) && (fd in h ==> h[fd] == Stopping))
  }

  lemma NoneStopped(listeners: seq<int>, h: map<int, Handler>)
    ensures StoppedTo(listeners, 0, h, h)
  {}

  lemma StoppedStep(listeners: seq<int>, i: nat, was: map<int, Handler>, h: map<int, Handler>)
    requires i < |listeners| && StoppedTo(listeners, i, was, h) && listeners[i] !in listeners[..i]
    ensures listeners[i] in h <==> listeners[i] in was
    ensures listeners[i] in h ==> h[listeners[i]] == was[listeners[i]]
    ensures StoppedTo(listeners, i + 1, was,
      if i == 0 then (h - {listeners[i]})[listeners[i] := Stopping] else h - {listeners[i]})
  {
    var fd := listeners[i];
    assert fd !in listeners[..i] && (fd in h <==> fd in was);
    assert listeners[..i + 1] == listeners[..i] + [fd];
    assert i > 0 ==> listeners[0] in listeners[..i];
  }

  lemma AllListening(listeners: seq<int>, maxFd: int, handlers: map<int, Handler>)
    requires forall i :: 0 <= i < |listeners| ==> 0 <= listeners[i] < maxFd
    requires forall i, j :: 0 <= i < j < |listeners| ==> listeners[i] != listeners[j]
    requires forall fd :: fd in handlers <==> fd in listeners
    requires forall fd :: fd in handlers ==> handlers[fd] == Accepting
    ensures Registered(listeners, maxFd, false, handlers)
  {}

  lemma NowStopped(listeners: seq<int>, maxFd: int, stopped: bool, was: map<int, Handler>, handlers: map<int, Handler>)
    requires Registered(listeners, maxFd, stopped, was) && StoppedTo(listeners, |listeners|, was, handlers)
    ensures Registered(listeners, maxFd, true, handlers)
    ensures forall fd :: fd !in listeners ==>
      (fd in handlers <==> fd in was) && (fd in handlers ==> handlers[fd] == was[fd])
    ensures forall fd :: fd in listeners ==> (fd in handlers <==> fd == listeners[0])
  {
    assert listeners[..|listeners|] == listeners;
  }

  /** How far the firing of due timers has come since the snapshot a: called in the order fired. */
  ghost predicate Fired(a: Snapshot, now: int, fired: seq<Timer>, b: Snapshot) {
    && After(a, b) && b.running == a.running && a.pendings <= b.pendings
    && (forall t :: t in fired ==> t.seconds <= now && t in b.called)
    && OnlyThese(a, fired, b)
    && (forall t :: t in a.items ==>
      if t.seconds <= now then t in b.items || t in b.called else b.items[t] == a.items[t])
    && (b.hasty == a.hasty ==> InOrder(a, now, fired, b))
  }

  /** No action ran but of the timers listed, and theirs all ran unless they had been called before or a
      callback cancels; at most one exception was raised, by the action of the last. */
  ghost predicate OnlyThese(a: Snapshot, fired: seq<Timer>, b: Snapshot) {
    && (forall t :: t in b.ran && t !in a.ran ==> t in fired)
    && (b.cancels == a.cancels ==>
          && (forall t :: t in b.called ==> t in a.called || t in fired)
          && (forall t :: t in fired ==> t in a.called || t in b.ran))
    && b.errors <= a.errors + 1
    && (b.errors > a.errors ==> |fired| > 0 && fired[|fired| - 1] in b.ran && fired[|fired| - 1] !in a.ran)
  }

  /** Without negative delays: exactly the timers due at the snapshot, in the order of their deadlines. */
  ghost predicate InOrder(a: Snapshot, now: int, fired: seq<Timer>, b: Snapshot) {
    && Sorted(fired)
    && multiset(fired) + Due(b.items, now) == Due(a.items, now)
    && (forall i, t :: 0 <= i < |fired| && t in Due(b.items, now) ==> fired[i].seconds <= t.seconds)
  }

  lemma FireNone(a: Snapshot, now: int)
    ensures Fired(a, now, [], a)
  {
    Onwards(a);
  }

  /** Callbacks add no due timer, unless with a negative delay. */
  lemma DueStays(a: Snapshot, b: Snapshot, now: int)
    requires Grew(a, b) && now <= a.clock && a.hasty == b.hasty
    ensures Due(b.items, now) == Due(a.items, now)
  {
    forall t | t in b.items ensures Due(b.items, now)[t] == Due(a.items, now)[t] {
      DueCount(a.items, now, t);
      DueCount(b.items, now, t);
    }
    DueWithin(a.items, now);
    DueWithin(b.items, now);
    SameWithin(Due(b.items, now), Due(a.items, now), b.items);
  }

  lemma DueLess(m: multiset<Timer>, item: Timer, now: int)
    requires item in m && item.seconds <= now
    ensures Due(m - multiset{item}, now) + multiset{item} == Due(m, now)
  {
    var less := m - multiset{item};
    forall t | t in m ensures (Due(less, now) + multiset{item})[t] == Due(m, now)[t] {
      DueCount(m, now, t);
      DueCount(less, now, t);
    }
    DueWithin(m, now);
    DueWithin(less, now);
    SameWithin(Due(less, now) + multiset{item}, Due(m, now), m);
  }

  predicate NoneDue(items: multiset<Timer>, now: int) {
    forall t :: t in items ==> t.seconds > now
  }

  lemma NothingDue(now: int)
    ensures NoneDue(multiset{}, now)
  {}

  predicate Earliest(item: Timer, items: multiset<Timer>, now: int) {
    item in items && item.seconds <= now && forall t :: t in items ==> item.seconds <= t.seconds
  }

  /** One timer fired: item leaves the heap at cur, then its callback takes the server to next. */
  lemma FireStep(a: Snapshot, now: int, fired: seq<Timer>, cur: Snapshot, item: Timer, mid: Snapshot, next: Snapshot)
    requires Fired(a, now, fired, cur) && now <= cur.clock
    requires Earliest(item, cur.items, now)
    requires mid == cur.(items := cur.items - multiset{item})
    requires RanOne(mid, item, next) && cur.errors == a.errors
    requires Queued(a.pendings, a.items, a.known)
    ensures Fired(a, now, fired + [item], next)
    ensures next.hasty < cur.hasty || (next.hasty == cur.hasty && |Due(next.items, now)| < |Due(cur.items, now)|)
  {
    hide OnlyThese, InOrder, Due, Grown;
    DueLess(cur.items, item, now);
    Onward(a, mid, next);
    OnlyOneMore(a, fired, cur, item, mid, next);
    assert next.pendings[..|a.pendings|] == next.pendings[..|mid.pendings|][..|a.pendings|];
    if next.hasty == cur.hasty {
      DueStays(mid, next, now);
      if cur.hasty == a.hasty { OrderStep(a, now, fired, cur, item, next); }
    }
    forall t | t in a.items
      ensures if t.seconds <= now then t in next.items || t in next.called else next.items[t] == a.items[t]
    {
      assert t in mid.known;
    }
  }

  lemma OnlyOneMore(a: Snapshot, fired: seq<Timer>, cur: Snapshot, item: Timer, mid: Snapshot, next: Snapshot)
    requires After(a, cur) && OnlyThese(a, fired, cur) && RanOne(mid, item, next) && cur.errors == a.errors
    requires mid == cur.(items := mid.items, pendings := mid.pendings)
    ensures OnlyThese(a, fired + [item], next)
  {
    hide Grew;
    var more := fired + [item];
    assert forall t :: t in more <==> t in fired || t == item;
  }

  lemma OrderStep(a: Snapshot, now: int, fired: seq<Timer>, cur: Snapshot, item: Timer, next: Snapshot)
    requires InOrder(a, now, fired, cur) && item in Due(cur.items, now)
    requires forall t :: t in cur.items ==> item.seconds <= t.seconds
    requires Due(next.items, now) + multiset{item} == Due(cur.items, now)
    ensures InOrder(a, now, fired + [item], next)
  {
    DueWithin(cur.items, now);
    Append(fired, item);
    var more := fired + [item];
    forall i, t | 0 <= i < |more| && t in Due(next.items, now)
      ensures more[i].seconds <= t.seconds
    {
      assert Due(cur.items, now)[t] >= Due(next.items, now)[t];
      assert t in Due(cur.items, now) && t in cur.items;
    }
  }

  /** How far the pending calls have been run since the snapshot a. */
  ghost predicate Popped(a: Snapshot, fired: seq<Timer>, b: Snapshot) {
    && After(a, b) && b.running == a.running
    && (forall t :: t in fired ==> t in b.called)
    && OnlyThese(a, fired, b)
    && (forall t :: t in a.pendings ==> t in b.pendings || t in b.called)
    && (forall t :: t in a.items ==> t in b.items)
    && (b.eager == a.eager ==>
          && |fired| + |b.pendings| == |a.pendings| && b.pendings == a.pendings[..|b.pendings|]
          && forall i :: 0 <= i < |fired| ==> fired[i] == a.pendings[|a.pendings| - 1 - i])
  }

  /** Every call pending at a, and every timer due at a, has been called by b: its action was run unless it
      had been cancelled or a callback cancels. */
  ghost predicate AllCalled(a: Snapshot, b: Snapshot) {
    && (forall t :: t in a.pendings ==> t in b.called)
    && (forall t :: t in a.items && t.seconds <= a.clock ==> t in b.called)
    && (b.cancels == a.cancels ==>
          && (forall t :: t in a.pendings ==> t in a.called || t in b.ran)
          && (forall t :: t in a.items && t.seconds <= a.clock ==> t in a.called || t in b.ran))
  }

  lemma TurnCalls(a: Snapshot, popped: seq<Timer>, b: Snapshot, fired: seq<Timer>, c: Snapshot)
    requires Popped(a, popped, b) && Fired(b, b.clock, fired, c)
    requires b.pendings == [] && NoneDue(c.items, b.clock)
    ensures AllCalled(a, c)
  {
    assert a.cancels <= b.cancels <= c.cancels;
    forall t | t in a.pendings && c.cancels == a.cancels ensures t in a.called || t in c.ran {
      assert t in b.called;
      if t in popped { assert t in a.called || t in b.ran; }
    }
    forall t | t in a.items && t.seconds <= a.clock && c.cancels == a.cancels ensures t in a.called || t in c.ran {
      assert t in b.items && t in c.called;
      if t in b.called { assert t in a.called || t in popped; } else { assert t in fired; }
    }
  }

  /** An exception in either half is that of a callback that ran. */
  lemma RaisedIn(a: Snapshot, popped: seq<Timer>, b: Snapshot, fired: seq<Timer>, c: Snapshot, d: Snapshot)
    requires Popped(a, popped, b) && Fired(b, b.clock, fired, c) && After(c, d) && c.errors != a.errors
    ensures exists t :: t in d.ran && t !in a.ran && t in popped + fired
  {
    if b.errors > a.errors {
      assert popped[|popped| - 1] in b.ran;
    } else {
      var t := fired[|fired| - 1];
      assert t in c.ran && t !in b.ran;
      assert t in d.ran && t !in a.ran;
    }
  }

  /** Every pending call and every due timer of a has been called by b, or one of the callbacks run raised. */
  ghost predicate Progress(a: Snapshot, b: Snapshot) {
    AllCalled(a, b) || exists t :: t in b.ran && t !in a.ran
  }

  lemma Progressed(a: Snapshot, ran: seq<Timer>, b: Snapshot)
    requires AllCalled(a, b) || exists t :: t in b.ran && t !in a.ran && t in ran
    ensures Progress(a, b)
  {
    if !AllCalled(a, b) { var t :| t in b.ran && t !in a.ran && t in ran; }
  }

  lemma ProgressStays(a: Snapshot, b: Snapshot, c: Snapshot)
    requires Progress(a, b) && After(a, b) && After(b, c)
    ensures Progress(a, c)
  {
    if AllCalled(a, b) {
      CalledOn(a, b, c);
    } else {
      var t :| t in b.ran && t !in a.ran;
      assert t in c.ran;
    }
  }

  lemma CalledOn(a: Snapshot, b: Snapshot, c: Snapshot)
    requires AllCalled(a, b) && After(a, b) && After(b, c)
    ensures AllCalled(a, c)
  {}

  lemma PopNone(a: Snapshot)
    ensures Popped(a, [], a)
  {
    Onwards(a);
  }

  lemma PopStep(a: Snapshot, fired: seq<Timer>, cur: Snapshot, item: Timer, mid: Snapshot, next: Snapshot)
    requires Popped(a, fired, cur)
    requires |cur.pendings| > 0 && item == cur.pendings[|cur.pendings| - 1]
    requires mid == cur.(pendings := cur.pendings[..|cur.pendings| - 1])
    requires RanOne(mid, item, next) && cur.errors == a.errors
    ensures Popped(a, fired + [item], next)
    ensures next.eager < cur.eager || (next.eager == cur.eager && |next.pendings| < |cur.pendings|)
  {
    OnlyOneMore(a, fired, cur, item, mid, next);
    hide OnlyThese;
    Onward(a, mid, next);
    forall t | t in a.pendings ensures t in next.pendings || t in next.called {
      if t in cur.pendings && t != item {
        var i :| 0 <= i < |cur.pendings| && cur.pendings[i] == t;
        assert next.pendings[i] == t;
      }
    }
  }

  /** One accept, with the registrations before and after it. */
  datatype Accept = Accept(fd: int, finish: int, fatal: bool, before: map<int, Handler>, after: map<int, Handler>) {
    predicate Leaves() {
      fd < 0 || fatal
    }

    /** What becomes of the registrations, unless a whole request goes to the application or a failing accept
        stops the server. */
    predicate Registers(maxFd: int) {
      && (!Leaves() && finish == 0 ==> after == if fd < maxFd then before[fd := Reading] else before)
      && (fd >= 0 && (fatal || (finish != 0 && finish != 1)) ==> after == before)
      && (fd < 0 && !fatal ==> after == before)
    }
  }

  /** Accepts that follow each other, from the registrations h on to g. */
  predicate Linked(h: map<int, Handler>, accepts: seq<Accept>, g: map<int, Handler>, maxFd: int) {
    if accepts == [] then h == g
    else
      var a := accepts[|accepts| - 1];
      Linked(h, accepts[..|accepts| - 1], a.before, maxFd) && a.after == g && a.Registers(maxFd)
  }

  class Server {
    const listeners: seq<int>
    const maxFd: int
    const timers: Heapq
    var pendings: seq<Timer>
    var pendingsMax: nat
    var handlers: map<int, Handler>
    var activecnt: int
    var loopDone: bool  // true for the source's loop_done == 1: keep going
    var clock: int      // current_msec / 1000
    var suspended: set<int>
    /** The surroundings: every timer made so far, whether kill_server has run, and how many more
        calls without delay, or with a negative one, application code will ask for. */
    var known: set<Timer>
    var stopped: bool
    var eager: nat
    var hasty: nat
    /** Whether anything will tell the server to stop, and whether a new connection may fail to be set up. */
    const mayStop: bool
    const mayBreak: bool
    /** How often application code has raised: PyErr_Occurred after a call. */
    var errors: nat
    /** How often it has cancelled a timer. */
    var cancels: nat

    /** init_main_loop and listen_all_sockets. */
    constructor (listeners: seq<int>, maxFd: int, clock: int, eager: nat, hasty: nat, mayStop: bool, mayBreak: bool)
      requires clock >= 0
      requires forall i :: 0 <= i < |listeners| ==> 0 <= listeners[i] < maxFd
      requires forall i, j :: 0 <= i < j < |listeners| ==> listeners[i] != listeners[j]
      ensures Valid() && Accounted(0) && activecnt == |listeners| && loopDone && !stopped
      ensures fresh(timers) && fresh(timers.heap) && known == {} && pendings == []
      ensures this.listeners == listeners && this.maxFd == maxFd && this.clock == clock
      ensures this.eager == eager && this.hasty == hasty && this.mayStop == mayStop && this.mayBreak == mayBreak
    {
      this.listeners, this.maxFd, this.clock := listeners, maxFd, clock;
      timers := new Heapq();
      pendings, pendingsMax, handlers, activecnt, loopDone, suspended := [], 1024, map[], 0, true, {};
      known, stopped, errors, cancels := {}, false, 0, 0;
      this.eager, this.hasty, this.mayStop, this.mayBreak := eager, hasty, mayStop, mayBreak;
      new;
      hide Work, Heapq.Valid, Heapq.Contents, Registered, Queued, Sound;
      NoWork();
      ListenAll();
      NothingYet();
      assert known == {} && pendings == [] && timers.Contents() == multiset{};
    }

    /** listen_all_sockets. */
    method ListenAll()
      requires forall i :: 0 <= i < |listeners| ==> 0 <= listeners[i] < maxFd
      requires forall i, j :: 0 <= i < j < |listeners| ==> listeners[i] != listeners[j]
      requires handlers == map[] && activecnt == 0
      modifies this`handlers, this`activecnt
      ensures Registered(listeners, maxFd, false, handlers) && |Work(handlers)| == activecnt == |listeners|
    {
      hide Work, Registered;
      NoWork();
      for i := 0 to |listeners|
        invariant forall fd :: fd in handlers <==> fd in listeners[..i]
        invariant forall fd :: fd in handlers ==> handlers[fd] == Accepting
        invariant |Work(handlers)| == activecnt == i
      {
        WorkAdd(handlers, listeners[i], Accepting);
        InWork(handlers, listeners[i]);
        var ret := AddFd(listeners[i], Accepting);
        if ret { activecnt := activecnt + 1; }
      }
      assert listeners[..|listeners|] == listeners;
      AllListening(listeners, maxFd, handlers);
    }

    ghost predicate Valid()
      reads this`known, this`pendings, this`pendingsMax, this`clock, this`stopped, this`handlers
      reads timers, timers.heap, known
    {
      && timers.Valid() && clock >= 0 && |pendings| <= pendingsMax && 0 < pendingsMax
      && Queued(pendings, timers.Contents(), known)
      && Sound(known)
      && Registered(listeners, maxFd, stopped, handlers)
    }

    /** The counter against what it counts, off by the call under way. */
    ghost predicate Accounted(off: int)
      reads this`activecnt, this`handlers, this`pendings, timers`size
    {
      activecnt == |Work(handlers)| + |pendings| + timers.size + off
    }

    ghost function Now(): Snapshot
      reads this`known, this`pendings, this`clock, this`loopDone, this`stopped
      reads this`errors, this`cancels, this`eager, this`hasty
      reads timers, timers.heap, known
    {
      Snapshot(known, CalledOf(known), RanOf(known), timers.Contents(),
        pendings, clock, loopDone, stopped, errors, cancels, eager, hasty, mayStop, mayBreak)
    }

    /** picoev_add. */
    method AddFd(fd: int, h: Handler) returns (ok: bool)
      modifies this`handlers
      ensures ok == (0 <= fd < maxFd)
      ensures handlers == if ok then old(handlers)[fd := h] else old(handlers)
    {
      ok := 0 <= fd < maxFd;
      if ok { handlers := handlers[fd := h]; }
    }

    /** picoev_add as the handlers use it: a descriptor already registered is not counted again. */
    method Register(fd: int, h: Handler, ghost off: int)
      requires Valid() && Accounted(off) && fd !in listeners && h != Stopping
      modifies this`handlers, this`activecnt
      ensures Valid() && Accounted(off) && Now() == old(Now())
      ensures handlers == if 0 <= fd < maxFd then old(handlers)[fd := h] else old(handlers)
    {
      hide Work, Heapq.Valid, Heapq.Contents;
      WorkAdd(handlers, fd, h);
      InWork(handlers, fd);
      var active := fd in handlers;
      var ret := AddFd(fd, h);
      if ret && !active { activecnt := activecnt + 1; }
    }

    /** picoev_add as accept_callback and close_client use it: the descriptor is known not to be registered. */
    method RegisterNew(fd: int, h: Handler, ghost off: int)
      requires Valid() && Accounted(off) && fd !in handlers && fd !in listeners && h != Stopping
      modifies this`handlers, this`activecnt
      ensures Valid() && Accounted(off) && Now() == old(Now())
      ensures handlers == if 0 <= fd < maxFd then old(handlers)[fd := h] else old(handlers)
    {
      hide Work, Heapq.Valid, Heapq.Contents;
      WorkAdd(handlers, fd, h);
      InWork(handlers, fd);
      var ret := AddFd(fd, h);
      if ret { activecnt := activecnt + 1; }
    }

    /** picoev_del with its activecnt--. */
    method Release(fd: int, ghost off: int)
      requires Valid() && Accounted(off) && fd in handlers && fd !in listeners
      modifies this`handlers, this`activecnt
      ensures Valid() && Accounted(off) && Now() == old(Now())
      ensures handlers == old(handlers) - {fd}
    {
      hide Work, Heapq.Valid, Heapq.Contents;
      WorkDel(handlers, fd);
      InWork(handlers, fd);
      handlers := handlers - {fd};
      activecnt := activecnt - 1;
    }

    /** What one more timer in one of the queues must leave. */
    twostate predicate Enlisted(new timer: Timer, off: int)
      reads this, timers, timers.heap, known
    {
      && Valid() && Accounted(off) && known == old(known) + {timer}
      && After(old(Now()), Now()) && Grown(old(Now()), Now())
      && handlers == old(handlers) && loopDone == old(loopDone) && stopped == old(stopped) && clock == old(clock)
    }

    /** realloc_pendings. */
    method ReallocPendings(alloc: bool) returns (ok: bool)
      requires Valid()
      modifies this`pendingsMax
      ensures Valid() && ok == (|pendings| < old(pendingsMax) || alloc) && (ok ==> |pendings| < pendingsMax)
      ensures pendingsMax == if |pendings| == old(pendingsMax) && alloc then 2 * old(pendingsMax) else old(pendingsMax)
    {
      hide Heapq.Valid, Heapq.Contents, Queued, Registered, Sound;
      ok := true;
      if |pendings| >= pendingsMax {
        var max := pendingsMax * 2;
        if !alloc { return false; }
        pendingsMax := max;
      }
    }

    /** internal_schedule_call without a delay: the pending calls. */
    method Pend(timer: Timer, ghost off: int)
      requires Valid() && Accounted(off) && eager > 0 && timer.Valid() && !timer.called && timer !in known
      requires |pendings| < pendingsMax
      modifies this`pendings, this`eager, this`known, this`activecnt
      ensures Enlisted(timer, off)
      ensures pendings == old(pendings) + [timer] && timers.Contents() == old(timers.Contents())
    {
      hide Work, Heapq.Valid, Heapq.Contents, After, Grown, Queued, Registered, CalledOf, RanOf, Sound;
      ghost var was := Now();
      CalledNew(known, timer);
      SoundNew(known, timer);
      assert known - {timer} == known;
      pendings := pendings + [timer];
      activecnt := activecnt + 1;
      known, eager := known + {timer}, eager - 1;
      Took(was, timer, Now());
    }

    /** internal_schedule_call with a delay: the heap. */
    method Push(timer: Timer, alloc: bool, ghost off: int) returns (ok: bool)
      requires Valid() && Accounted(off) && timer.Valid() && !timer.called && timer !in known
      requires timer.seconds <= clock ==> hasty > 0
      modifies this`hasty, this`known, this`activecnt, timers, timers.heap
      ensures timers.heap == old(timers.heap) || fresh(timers.heap)
      ensures ok == (old(timers.size) < old(timers.max) || alloc)
      ensures ok ==> Enlisted(timer, off) && timers.Contents() == old(timers.Contents()) + multiset{timer}
      ensures !ok ==> Valid() && Accounted(off) && Now() == old(Now()) && known == old(known)
    {
      hide Work, Heapq.Valid, Heapq.Contents, After, Grown, Queued, Registered, CalledOf, RanOf, Sound;
      ghost var was := Now();
      ok := timers.HeapPush(timer, alloc);
      if ok { Count(timer, was, off); }
    }

    /** The counting of a timer that is in the heap. */
    method Count(timer: Timer, ghost was: Snapshot, ghost off: int)
      requires timers.Valid() && Accounted(off - 1) && clock >= 0 && |pendings| <= pendingsMax && 0 < pendingsMax
      requires Queued(was.pendings, was.items, was.known) && Sound(known)
      requires Registered(listeners, maxFd, stopped, handlers)
      requires Now() == was.(items := was.items + multiset{timer})
      requires timer.Valid() && !timer.called && timer !in known && (timer.seconds <= clock ==> hasty > 0)
      modifies this`hasty, this`known, this`activecnt
      ensures Valid() && Accounted(off) && known == old(known) + {timer}
      ensures After(was, Now()) && Grown(was, Now())
    {
      hide Work, Heapq.Valid, Heapq.Contents, After, Grown, Queued, Registered, CalledOf, RanOf, Sound;
      CalledNew(known, timer);
      SoundNew(known, timer);
      assert known - {timer} == known;
      activecnt := activecnt + 1;
      known, hasty := known + {timer}, if timer.seconds <= clock then hasty - 1 else hasty;
      Took(was, timer, Now());
    }

    /** internal_schedule_call.  alloc is what realloc answers. */
    method InternalSchedule(seconds: int, alloc: bool, ghost off: int) returns (timer: Timer?)
      requires Valid() && Accounted(off)
      requires (seconds == 0 ==> eager > 0) && (seconds < 0 ==> hasty > 0)
      modifies this`pendings, this`pendingsMax, this`eager, this`hasty, this`known, this`activecnt, timers, timers.heap
      ensures timers.heap == old(timers.heap) || fresh(timers.heap)
      ensures timer == null <==>
        !alloc && if seconds == 0 then old(|pendings| == pendingsMax) else old(timers.size >= timers.max)
      ensures timer == null ==> Valid() && Accounted(off) && Now() == old(Now()) && known == old(known)
      ensures timer != null ==>
        && Enlisted(timer, off) && fresh(timer) && !timer.called
        && timer.seconds == (if seconds > 0 then clock + seconds else 0)
        && pendings == (if seconds == 0 then old(pendings) + [timer] else old(pendings))
        && timers.Contents() == old(timers.Contents()) + (if seconds == 0 then multiset{} else multiset{timer})
    {
      hide Work, Heapq.Valid, Heapq.Contents, After, Grown, Queued, Registered, CalledOf, RanOf, Sound, Now, Accounted;
      timer := new Timer(seconds, clock);
      if seconds == 0 {
        var ok := ReallocPendings(alloc);
        if !ok { return null; }
        Pend(timer, off);
      } else {
        var ok := Push(timer, alloc, off);
        if !ok { return null; }
      }
    }

    /** What every call from application code, and every callback, keeps. */
    twostate predicate Kept(off: int)
      reads this, timers, timers.heap, known
    {
      && Valid() && Accounted(off)
      && After(old(Now()), Now()) && Grown(old(Now()), Now())
      && fresh(known - old(known)) && (timers.heap == old(timers.heap) || fresh(timers.heap))
    }

    /** Calls from application code neither end the loop nor raise by themselves. */
    twostate predicate Untouched()
      reads this
    {
      loopDone == old(loopDone) && errors == old(errors)
    }

    /** schedule_call. */
    method ScheduleCall(seconds: int, alloc: bool, ghost off: int) returns (timer: Timer?)
      requires Valid() && Accounted(off)
      requires seconds >= 0 && IntOf(seconds) == 0 ==> eager > 0
      requires seconds >= 0 && IntOf(seconds) < 0 ==> hasty > 0
      modifies this, timers, timers.heap
      ensures Kept(off) && Untouched()
      ensures timer == null <==>
        seconds < 0 || (!alloc && if IntOf(seconds) == 0 then old(|pendings| == pendingsMax)
          else old(timers.size >= timers.max))
      ensures timer != null && IntOf(seconds) > 0 ==>
        timer.seconds == old(clock) + IntOf(seconds) && timer in timers.Contents()
      ensures timer != null && IntOf(seconds) < 0 ==> timer.seconds == 0 && timer in timers.Contents()
      ensures timer != null && IntOf(seconds) == 0 ==> pendings == old(pendings) + [timer]
    {
      hide Work, Heapq.Valid, Heapq.Contents, After, Grown, Queued, Registered, CalledOf, RanOf, Sound, Now, Accounted;
      Onwards(Now());
      if seconds < 0 { return null; }
      timer := InternalSchedule(IntOf(seconds), alloc, off);
    }

    /** sleep: the sign is not looked at. */
    method Sleep(seconds: int, alloc: bool, ghost off: int) returns (timer: Timer?)
      requires Valid() && Accounted(off) && -0x8000_0000 <= seconds < 0x8000_0000
      requires (seconds == 0 ==> eager > 0) && (seconds < 0 ==> hasty > 0)
      modifies this, timers, timers.heap
      ensures Kept(off) && Untouched()
      ensures timer == null <==>
        !alloc && if seconds == 0 then old(|pendings| == pendingsMax) else old(timers.size >= timers.max)
      ensures timer != null && seconds == 0 ==> pendings == old(pendings) + [timer]
      ensures timer != null && seconds != 0 ==>
        timer.seconds == (if seconds > 0 then old(clock) + seconds else 0) && timer in timers.Contents()
    {
      hide Work, Heapq.Valid, Heapq.Contents, After, Grown, Queued, Registered, CalledOf, RanOf, Sound, Now, Accounted;
      Onwards(Now());
      timer := InternalSchedule(seconds, alloc, off);
    }

    /** A timer's cancel. */
    method CancelTimer(timer: Timer, ghost off: int)
      requires Valid() && Accounted(off) && timer in known
      modifies timer, this`cancels
      ensures Kept(off) && timer.called && timer.cancelled && cancels == old(cancels) + 1
    {
      hide Work, Heapq.Valid, Heapq.Contents, Queued, Registered;
      ghost var was := Now();
      cancels := cancels + 1;
      timer.Cancel();
      assert RanOf(known) == was.ran && CalledOf(known) >= was.called;
      assert Sound(known);
    }

    /** trampoline: wait for a descriptor. */
    method Trampoline(fd: int, read: bool, write: bool, timeout: int, hub: bool, ghost off: int) returns (ok: bool)
      requires Valid() && Accounted(off) && fd !in listeners
      modifies this
      ensures Kept(off) && Untouched()
      ensures ok <==> fd >= 0 && timeout >= 0 && (read || write || timeout > 0) && !hub
      ensures handlers == if ok && fd < maxFd then old(handlers)[fd := Resuming] else old(handlers)
    {
      hide Work, Heapq.Valid, Heapq.Contents, After, Grown, Queued, Registered, CalledOf, RanOf, Sound, Now, Accounted;
      Onwards(Now());
      if fd < 0 || timeout < 0 || (!read && !write && timeout <= 0) || hub { return false; }
      Register(fd, Resuming, off);
      ok := true;
    }

    /** _suspend_client. */
    method SuspendClient(fd: int, timeout: int, ghost off: int) returns (ok: bool)
      requires Valid() && Accounted(off) && fd !in listeners
      modifies this
      ensures Kept(off) && Untouched()
      ensures ok == (timeout >= 0 && fd !in old(suspended))
      ensures suspended == if ok then old(suspended) + {fd} else old(suspended)
      ensures handlers == if ok && 0 <= fd < maxFd
        then old(handlers)[fd := if timeout > 0 then Expiring else Checking] else old(handlers)
    {
      hide Work, Heapq.Valid, Heapq.Contents, After, Grown, Queued, Registered, CalledOf, RanOf, Sound, Now, Accounted;
      Onwards(Now());
      if timeout < 0 || fd in suspended { return false; }
      suspended := suspended + {fd};
      Register(fd, if timeout > 0 then Expiring else Checking, off);
      ok := true;
    }

    /** _resume_client. */
    method ResumeClient(fd: int, ghost off: int) returns (ok: bool)
      requires Valid() && Accounted(off) && fd !in listeners
      modifies this
      ensures Kept(off) && Untouched()
      ensures ok == (fd in old(suspended)) && suspended == old(suspended) - {fd}
      ensures handlers == if ok && 0 <= fd < maxFd then old(handlers)[fd := Resuming] else old(handlers)
    {
      hide Work, Heapq.Valid, Heapq.Contents, After, Grown, Queued, Registered, CalledOf, RanOf, Sound, Now, Accounted;
      Onwards(Now());
      if fd !in suspended { return false; }
      suspended := suspended - {fd};
      Register(fd, Resuming, off);
      ok := true;
    }

    /** cancel_wait. */
    method CancelWait(fd: int, ghost off: int)
      requires Valid() && Accounted(off) && fd !in listeners
      modifies this
      ensures Kept(off) && Untouched()
      ensures handlers == if fd >= 0 then old(handlers) - {fd} else old(handlers)
    {
      hide Work, Heapq.Valid, Heapq.Contents, After, Grown, Queued, Registered, CalledOf, RanOf, Sound, Now, Accounted;
      Onwards(Now());
      if fd < 0 { return; }
      if fd in handlers {
        Release(fd, off);
      }
    }

    /** close_client: piped says that another request waits, keepAlive that the connection stays open. */
    method CloseClient(fd: int, piped: bool, keepAlive: bool, ghost off: int)
      requires Valid() && Accounted(off) && fd !in listeners
      modifies this
      ensures Kept(off) && Untouched()
      ensures fd in handlers <==> !piped && keepAlive && 0 <= fd < maxFd
      ensures fd in handlers ==> handlers[fd] == Reading
      ensures handlers == (old(handlers) - {fd})[fd := Reading] || handlers == old(handlers) - {fd}
    {
      hide Work, Heapq.Valid, Heapq.Contents, After, Grown, Queued, Registered, CalledOf, RanOf, Sound, Now, Accounted;
      Onwards(Now());
      if fd in handlers {
        Release(fd, off);
      }
      if piped { return; }
      if keepAlive {
        RegisterNew(fd, Reading, off);
      }
    }

    /** kill_server: the listeners go, the shutdown timer comes, uncounted.  picoev_del answers 0 for a
        descriptor that is not registered as well, so that the first stop keeps the count and every further
        one takes one away for each listener. */
    method KillServer(ghost off: int)
      requires Valid() && Accounted(off)
      modifies this`handlers, this`activecnt, this`stopped
      ensures Valid() && stopped && Grown(old(Now()), Now())
      ensures old(stopped) || mayStop ==> After(old(Now()), Now())
      ensures Accounted(if old(stopped) then off - |listeners| else off)
      ensures forall fd :: fd !in listeners ==>
        (fd in handlers <==> fd in old(handlers)) && (fd in handlers ==> handlers[fd] == old(handlers)[fd])
      ensures forall fd :: fd in listeners ==> (fd in handlers <==> fd == listeners[0])
    {
      hide Work, Heapq.Valid, Heapq.Contents, Queued, CalledOf, RanOf, Sound, After, Grown, Registered, StoppedTo;
      ListenersCounted(listeners, maxFd, stopped, handlers);
      StopOnly(Now());
      NoneStopped(listeners, handlers);
      stopped := true;
      for i := 0 to |listeners|
        invariant stopped && StoppedTo(listeners, i, old(handlers), handlers)
        invariant activecnt == old(activecnt) - i
        invariant |Work(handlers)| == |Work(old(handlers))| - if old(stopped) then 0 else i
      {
        InWork(handlers, listeners[i]);
        InWork(old(handlers), listeners[i]);
        StoppedStep(listeners, i, old(handlers), handlers);
        StopListener(listeners[i], i == 0);
      }
      NowStopped(listeners, maxFd, old(stopped), old(handlers), handlers);
    }

    /** The body of its loop: the first listener's descriptor then serves the shutdown timer. */
    method StopListener(fd: int, first: bool)
      requires 0 <= fd < maxFd
      modifies this`handlers, this`activecnt
      ensures handlers == if first then (old(handlers) - {fd})[fd := Stopping] else old(handlers) - {fd}
      ensures activecnt == old(activecnt) - 1
      ensures |Work(handlers)| == |Work(old(handlers))| - if fd in Work(old(handlers)) then 1 else 0
    {
      hide Work;
      WorkDel(handlers, fd);
      handlers := handlers - {fd};
      activecnt := activecnt - 1;
      if first {
        WorkStop(handlers, fd);
        var _ := AddFd(fd, Stopping);
      }
    }

    /** Application code: any finite number of calls into the server, and perhaps an exception at the
        end.  It leaves the listeners' descriptors alone and stops the server at most once. */
    method Application(ghost off: int) returns (raised: bool)
      requires Valid() && Accounted(off)
      modifies this, timers, timers.heap, known
      ensures Kept(off) && loopDone == old(loopDone)
      ensures errors == old(errors) + if raised then 1 else 0
    {
      hide Work, Heapq.Valid, Heapq.Contents, After, Grown, Queued, Registered, CalledOf, RanOf, Sound, Now, Accounted;
      ghost var was := Now();
      Onwards(was);
      var n: int := *;
      for i := 0 to if n > 0 then n else 0
        invariant loopDone == old(loopDone) && errors == old(errors)
        invariant Valid() && Accounted(off) && After(was, Now()) && Grown(was, Now())
        invariant fresh(known - old(known)) && (timers.heap == old(timers.heap) || fresh(timers.heap))
      {
        ghost var prev := Now();
        AppCall(off);
        Onward(was, prev, Now());
      }
      raised := *;
      ghost var before := Now();
      if raised { Raise(off); Onward(was, before, Now()); }
    }

    /** An exception. */
    method Raise(ghost off: int)
      requires Valid() && Accounted(off)
      modifies this`errors
      ensures Kept(off) && errors == old(errors) + 1
    {
      hide Work, Heapq.Valid, Heapq.Contents, Queued, Registered, CalledOf, RanOf, Sound, After, Grown;
      OneMore(Now());
      errors := errors + 1;
    }

    /** One call. */
    method AppCall(ghost off: int)
      requires Valid() && Accounted(off)
      modifies this, timers, timers.heap, known
      ensures Kept(off) && Untouched()
    {
      hide Work, Heapq.Valid, Heapq.Contents, After, Grown, Queued, Registered, CalledOf, RanOf, Sound, Now, Accounted;
      Onwards(Now());
      var what: nat, fd: int, seconds: int := *, *, *;
      var one: bool, two: bool, three: bool := *, *, *;
      if what == 0 {
        if seconds < 0 || ((IntOf(seconds) == 0 ==> eager > 0) && (IntOf(seconds) < 0 ==> hasty > 0)) {
          var _ := ScheduleCall(seconds, one, off);
        }
      } else if what == 1 {
        if -0x8000_0000 <= seconds < 0x8000_0000 && (seconds == 0 ==> eager > 0) && (seconds < 0 ==> hasty > 0) {
          var _ := Sleep(seconds, one, off);
        }
      } else if what == 2 {
        if known != {} {
          var timer :| timer in known;
          CancelTimer(timer, off);
        }
      } else if what == 3 {
        Tick(seconds, off);
      } else if what == 4 {
        if mayStop && !stopped { Stop(off); }
      } else if fd !in listeners {
        OnDescriptor(what, fd, seconds, one, two, three, off);
      }
    }

    /** A call about one descriptor. */
    method OnDescriptor(what: nat, fd: int, seconds: int, one: bool, two: bool, three: bool, ghost off: int)
      requires Valid() && Accounted(off) && fd !in listeners
      modifies this
      ensures Kept(off) && Untouched()
    {
      hide Work, Heapq.Valid, Heapq.Contents, After, Grown, Queued, Registered, CalledOf, RanOf, Sound, Now, Accounted;
      if what == 5 {
        var _ := Trampoline(fd, one, two, seconds, three, off);
      } else if what == 6 {
        var _ := SuspendClient(fd, seconds, off);
      } else if what == 7 {
        var _ := ResumeClient(fd, off);
      } else if what == 8 {
        CancelWait(fd, off);
      } else {
        CloseClient(fd, one, two, off);
      }
    }

    /** cache_time_update: the cached clock moves forward. */
    method Tick(seconds: int, ghost off: int)
      requires Valid() && Accounted(off)
      modifies this`clock
      ensures Kept(off) && Untouched() && clock == old(clock) + if seconds > 0 then seconds else 0
    {
      hide Work, Heapq.Valid, Heapq.Contents, Queued, Registered, CalledOf, RanOf, Sound, After, Grown;
      Later(Now(), if seconds > 0 then seconds else 0);
      clock := clock + if seconds > 0 then seconds else 0;
    }

    /** stop, or a caught signal, for the first time. */
    method Stop(ghost off: int)
      requires Valid() && Accounted(off) && mayStop && !stopped
      modifies this`handlers, this`activecnt, this`stopped
      ensures Kept(off) && Untouched() && stopped
    {
      hide Work, Heapq.Valid, Heapq.Contents, Queued, CalledOf, RanOf, Sound, After, Grown;
      KillServer(off);
    }

    /** The flag fire_timer sets before it runs the action. */
    method Mark(timer: Timer) returns (ran: bool)
      requires Valid() && Accounted(1) && timer in known
      modifies timer
      ensures Valid() && Accounted(1) && After(old(Now()), Now()) && Grew(old(Now()), Now())
      ensures Now().called == old(Now()).called + {timer} && (ran <==> timer !in old(Now()).called)
      ensures Now().ran == old(Now().ran) + if ran then {timer} else {}
      ensures ran ==> timer !in old(Now()).ran
    {
      hide Work, Heapq.Valid, Heapq.Contents, Queued, Registered;
      ghost var was := Now();
      ran := timer.Fire();
      assert CalledOf(known) == was.called + {timer} && RanOf(known) == was.ran + if ran then {timer} else {};
      assert Sound(known);
    }

    /** fire_timer and what follows it: run the action of a timer just taken out of its queue. */
    method FireOne(timer: Timer) returns (raised: bool)
      requires Valid() && Accounted(1) && timer in known
      modifies this, timers, timers.heap, known
      ensures Valid() && Accounted(0) && RanOne(old(Now()), timer, Now())
      ensures errors == old(errors) + (if raised then 1 else 0) && loopDone == old(loopDone)
      ensures fresh(known - old(known)) && (timers.heap == old(timers.heap) || fresh(timers.heap))
    {
      hide Work, Heapq.Valid, Heapq.Contents, After, Grew, Grown, Queued, Registered, CalledOf, RanOf, Sound, RanOne;
      ghost var was := Now();
      raised := false;
      var ran := Mark(timer);
      ghost var prev := Now();
      if ran {
        raised := Application(1);
        RanWith(was, timer, prev, Now());
      } else {
        RanNot(was, timer, prev);
      }
      activecnt := activecnt - 1;
    }

    /** fire_pendings: the last call scheduled goes first. */
    method FirePendings() returns (ok: bool, ghost fired: seq<Timer>)
      requires Valid() && Accounted(0)
      modifies this, timers, timers.heap, known
      ensures Valid() && Accounted(0) && Popped(old(Now()), fired, Now())
      ensures fresh(known - old(known)) && (timers.heap == old(timers.heap) || fresh(timers.heap))
      ensures ok <==> errors == old(errors)
      ensures ok && loopDone ==> pendings == []
      ensures !loopDone ==> fired == []
    {
      hide Work, Heapq.Valid, Heapq.Contents, After, Grew, Grown, Queued, Registered, CalledOf, RanOf, Sound, Popped,
           RanOne;
      ok, fired := true, [];
      ghost var was := Now();
      PopNone(was);
      while |pendings| > 0 && loopDone && activecnt > 0
        invariant ok && errors == old(errors) && loopDone == old(loopDone)
        invariant Valid() && Accounted(0) && Popped(was, fired, Now()) && (!loopDone ==> fired == [])
        invariant fresh(known - old(known)) && (timers.heap == old(timers.heap) || fresh(timers.heap))
        decreases eager, |pendings|
      {
        ghost var cur, f := Now(), fired;
        var timer := pendings[|pendings| - 1];
        LastQueued(pendings, timers.Contents(), known);
        pendings := pendings[..|pendings| - 1];
        ghost var mid := Now();
        var raised := FireOne(timer);
        PopStep(was, f, cur, timer, mid, Now());
        fired := fired + [timer];
        if raised { ok := false; break; }
      }
    }

    /** The earliest timer, taken out of the heap if it is due. */
    method PopDue(now: int) returns (timer: Timer?)
      requires Valid() && Accounted(0) && timers.size > 0
      modifies timers`size, timers.heap
      ensures Valid() && Accounted(if timer == null then 0 else 1)
      ensures timer == null ==> Now() == old(Now()) && NoneDue(timers.Contents(), now)
      ensures timer != null ==>
        && timer in known && Earliest(timer, old(timers.Contents()), now)
        && Now() == old(Now()).(items := old(timers.Contents()) - multiset{timer})
    {
      hide Work, Heapq.Valid, Heapq.Contents, Queued, Registered, CalledOf, RanOf, Sound;
      timers.RootFirst();
      if timers.heap[0].seconds <= now {
        ghost var cur := Now();
        QueuedItems(pendings, timers.Contents(), known);
        timer := timers.HeapPop();
        assert Now().items == cur.items - multiset{timer};
        StillQueued(cur, Now());
      } else {
        timer := null;
      }
    }

    /** One round of fire_timers, after the firings listed since the snapshot was. */
    method FireDue(now: int, ghost was: Snapshot, ghost before: seq<Timer>)
      returns (timer: Timer?, raised: bool, ghost fired: seq<Timer>)
      requires Valid() && Accounted(0) && timers.size > 0 && errors == was.errors
      requires Fired(was, now, before, Now()) && now <= clock && Queued(was.pendings, was.items, was.known)
      modifies this, timers, timers.heap, known
      ensures Valid() && Accounted(0) && Fired(was, now, fired, Now()) && now <= clock
      ensures fresh(known - old(known)) && (timers.heap == old(timers.heap) || fresh(timers.heap))
      ensures errors == old(errors) + (if raised then 1 else 0) && loopDone == old(loopDone)
      ensures timer == null ==> NoneDue(timers.Contents(), now) && Now() == old(Now()) && fired == before && !raised
      ensures timer != null ==>
        || hasty < old(hasty)
        || (hasty == old(hasty) && |Due(timers.Contents(), now)| < |Due(old(timers.Contents()), now)|)
    {
      hide Work, Heapq.Valid, Heapq.Contents, After, Grew, Grown, Queued, Registered, CalledOf, RanOf, Sound,
           Fired, Earliest, Due, NoneDue, RanOne;
      ghost var cur := Now();
      fired, raised := before, false;
      timer := PopDue(now);
      if timer != null {
        ghost var mid := Now();
        raised := FireOne(timer);
        FireStep(was, now, before, cur, timer, mid, Now());
        RanAfter(mid, timer, Now());
        fired := before + [timer];
      }
    }

    /** fire_timers: due timers, earliest first, against the clock read once at the start. */
    method FireTimers() returns (ok: bool, ghost fired: seq<Timer>)
      requires Valid() && Accounted(0)
      modifies this, timers, timers.heap, known
      ensures Valid() && Accounted(0) && Fired(old(Now()), old(clock), fired, Now())
      ensures fresh(known - old(known)) && (timers.heap == old(timers.heap) || fresh(timers.heap))
      ensures ok <==> errors == old(errors)
      ensures ok && loopDone ==> NoneDue(timers.Contents(), old(clock))
      ensures !loopDone ==> fired == []
    {
      hide Work, Heapq.Valid, Heapq.Contents, After, Grew, Grown, Queued, Registered, CalledOf, RanOf, Sound,
           Fired, Earliest, Due, NoneDue, RanOne;
      ok, fired := true, [];
      var now := clock;
      ghost var was := Now();
      FireNone(was, now);
      while timers.size > 0 && loopDone && activecnt > 0
        invariant ok && errors == old(errors) && loopDone == old(loopDone)
        invariant Valid() && Accounted(0) && Fired(was, now, fired, Now()) && now <= clock
        invariant !loopDone ==> fired == []
        invariant fresh(known - old(known)) && (timers.heap == old(timers.heap) || fresh(timers.heap))
        decreases hasty, |Due(timers.Contents(), now)|
      {
        var timer, raised;
        timer, raised, fired := FireDue(now, was, fired);
        if timer == null { break; }
        if raised { ok := false; break; }
      }
      if timers.size == 0 { timers.Hollow(); NothingDue(now); }
    }

    /** accept_callback for one connection.  The system hands out a descriptor that is not registered, or
        none (fd < 0); finish is what the first read comes to: 1 a whole request, 0 wait for more, else closed. */
    method AcceptOne() returns (fd: int, finish: int, fatal: bool)
      requires Valid() && Accounted(0)
      modifies this, timers, timers.heap, known
      ensures Kept(0)
      ensures fd >= 0 && !fatal && finish == 0 ==>
        handlers == if fd < maxFd then old(handlers)[fd := Reading] else old(handlers)
      ensures fd >= 0 && !fatal && finish != 0 && finish != 1 ==> handlers == old(handlers)
      ensures fd >= 0 && fatal ==> !loopDone && handlers == old(handlers)
      ensures fd < 0 && fatal ==> stopped
      ensures fd < 0 && !fatal ==> handlers == old(handlers)
    {
      hide Work, Heapq.Valid, Heapq.Contents, After, Grown, Queued, Registered, CalledOf, RanOf, Sound, Now, Accounted;
      ghost var was := Now();
      Onwards(was);
      fd, finish, fatal := *, *, *;
      if fd in handlers || fd in listeners { fd := -1; }
      fatal := fatal && if fd < 0 then stopped || mayStop else mayBreak;
      if fd < 0 {
        if fatal && !stopped { Stop(0); }
      } else if fatal {
        Halt(0);
      } else if finish == 1 {
        var _ := Application(0);
      } else if finish == 0 {
        RegisterNew(fd, Reading, 0);
      } else {
        assert handlers - {fd} == handlers;
        CloseClient(fd, false, false, 0);
      }
    }

    /** loop_done = 0. */
    method Halt(ghost off: int)
      requires Valid() && Accounted(off) && (stopped || mayBreak)
      modifies this`loopDone
      ensures Kept(off) && !loopDone && handlers == old(handlers)
    {
      hide Work, Heapq.Valid, Heapq.Contents, Queued, Registered, CalledOf, RanOf, Sound, After, Grown;
      Halted(Now());
      loopDone := false;
    }

    /** accept_callback: one to eight connections, each as AcceptOne says, until one asks to leave. */
    method AcceptCallback(timedOut: bool) returns (ghost accepts: seq<Accept>)
      requires Valid() && Accounted(0)
      modifies this, timers, timers.heap, known
      ensures Kept(0)
      ensures |accepts| <= 8 && (accepts == [] <==> timedOut) && Linked(old(handlers), accepts, handlers, maxFd)
      ensures forall i :: 0 <= i < |accepts| - 1 ==> !accepts[i].Leaves()
      ensures 0 < |accepts| < 8 ==> accepts[|accepts| - 1].Leaves()
      ensures forall a :: a in accepts && a.fatal ==> if a.fd >= 0 then !loopDone else stopped
    {
      hide Work, Heapq.Valid, Heapq.Contents, After, Grown, Queued, Registered, CalledOf, RanOf, Sound, Now, Accounted;
      ghost var was := Now();
      Onwards(was);
      accepts := [];
      if timedOut { return; }
      for i := 0 to 8
        invariant Valid() && Accounted(0) && After(was, Now()) && Grown(was, Now())
        invariant fresh(known - old(known)) && (timers.heap == old(timers.heap) || fresh(timers.heap))
        invariant |accepts| == i && Linked(old(handlers), accepts, handlers, maxFd)
        invariant forall a :: a in accepts ==> !a.Leaves()
      {
        ghost var prev, from := Now(), handlers;
        var fd, finish, fatal := AcceptOne();
        Onward(was, prev, Now());
        accepts := accepts + [Accept(fd, finish, fatal, from, handlers)];
        if fd < 0 || fatal { break; }
      }
    }

    /** read_callback: finish as in AcceptOne, after a read or a read timeout; handed are the registrations
        the application starts from. */
    method ReadCallback(fd: int, finish: int, callable: bool) returns (ghost handed: map<int, Handler>)
      requires Valid() && Accounted(0) && fd in handlers && handlers[fd] == Reading && fd !in listeners
      modifies this, timers, timers.heap, known
      ensures Kept(0)
      ensures handed == if finish == 0 then old(handlers) else old(handlers) - {fd}
      ensures !(finish == 1 && callable) ==> handlers == handed
    {
      hide Work, Heapq.Valid, Heapq.Contents, After, Grown, Queued, Registered, CalledOf, RanOf, Sound, Now, Accounted;
      ghost var was := Now();
      Onwards(was);
      handed := handlers;
      if finish == 1 {
        Release(fd, 0);
        handed := handlers;
        if callable { var _ := Application(0); }
      } else if finish != 0 {
        CloseClient(fd, false, false, 0);
        handed := handlers;
      }
    }

    /** trampoline_callback, and timeout_error_callback and timeout_callback when they give up: the
        descriptor goes and the waiting code runs on from there. */
    method ResumeCallback(fd: int, client: bool) returns (ghost handed: map<int, Handler>)
      requires Valid() && Accounted(0) && fd in handlers && fd !in listeners
      modifies this, timers, timers.heap, known
      ensures Kept(0) && handed == old(handlers) - {fd}
    {
      hide Work, Heapq.Valid, Heapq.Contents, After, Grown, Queued, Registered, CalledOf, RanOf, Sound, Now, Accounted;
      ghost var was := Now();
      Onwards(was);
      Release(fd, 0);
      handed := handlers;
      if client { suspended := suspended - {fd}; }
      var _ := Application(0);
    }

    /** kill_callback: no activecnt-- here. */
    method KillCallback(fd: int, timedOut: bool)
      requires Valid() && Accounted(0) && fd in handlers && handlers[fd] == Stopping
      modifies this`handlers, this`loopDone
      ensures Kept(0) && handlers == old(handlers) - {fd} && loopDone == (old(loopDone) && !timedOut)
    {
      hide Work, Heapq.Valid, Heapq.Contents, Queued, CalledOf, RanOf, Sound, After, Grown;
      WorkDel(handlers, fd);
      InWork(handlers, fd);
      Onwards(Now());
      OnlyStopped();
      Halted(Now());
      handlers := handlers - {fd};
      if timedOut { loopDone := false; }
    }

    lemma OnlyStopped()
      requires Valid()
      ensures forall fd :: fd in handlers && handlers[fd] == Stopping ==> stopped
    {
      hide Heapq.Valid, Heapq.Contents, Queued, Sound;
    }

    /** One event on a registered descriptor.  The shutdown timer ends the loop; a suspended client that has
        not timed out stays as it is. */
    method Event(fd: int, timedOut: bool)
      requires Valid() && Accounted(0) && fd in handlers
      modifies this, timers, timers.heap, known
      ensures Kept(0)
      ensures old(handlers)[fd] == Stopping && timedOut ==> !loopDone
      ensures (old(handlers)[fd] == Expiring || old(handlers)[fd] == Checking) && !timedOut ==>
        handlers == old(handlers)
    {
      hide Work, Heapq.Valid, Heapq.Contents, After, Grown, Queued, Registered, CalledOf, RanOf, Sound, Now, Accounted;
      Onwards(Now());
      ListenersOnly();
      var finish: int, failed: bool := *, *;
      var h := handlers[fd];
      if h == Accepting && fd in listeners {
        var _ := AcceptCallback(timedOut);
      } else if h == Stopping {
        KillCallback(fd, timedOut);
      } else if h == Reading {
        var _ := ReadCallback(fd, finish, failed);
      } else if h == Resuming {
        var _ := ResumeCallback(fd, false);
      } else if (h == Expiring && timedOut) || (h == Checking && timedOut && failed) {
        var _ := ResumeCallback(fd, true);
      }
    }

    lemma ListenersOnly()
      requires Valid()
      ensures forall fd :: fd in handlers && fd in listeners ==> handlers[fd] == Accepting || handlers[fd] == Stopping
    {
      hide Heapq.Valid, Heapq.Contents, Queued, Sound;
    }

    /** picoev_loop_once: any number of events. */
    method LoopOnce()
      requires Valid() && Accounted(0)
      modifies this, timers, timers.heap, known
      ensures Kept(0)
    {
      hide Work, Heapq.Valid, Heapq.Contents, After, Grown, Queued, Registered, CalledOf, RanOf, Sound, Now, Accounted;
      ghost var was := Now();
      Onwards(was);
      Tick(1, 0);
      var n: int := *;
      Onward(was, Now(), Now());
      for i := 0 to if n > 0 then n else 0
        invariant Valid() && Accounted(0) && After(was, Now()) && Grown(was, Now())
        invariant fresh(known - old(known)) && (timers.heap == old(timers.heap) || fresh(timers.heap))
      {
        ghost var prev := Now();
        var fd: int, timedOut: bool := *, *;
        if fd in handlers { Event(fd, timedOut); } else { Onwards(prev); }
        Onward(was, prev, Now());
      }
    }

    /** fire_pendings and fire_timers: popped are the calls of the first, fired those of the second, with the
        snapshot mid between them.  Any exception is that of the last call of either.  While the loop runs and
        no callback raises, every call pending at the start and every timer due by then is called. */
    method FireAll() returns (ghost popped: seq<Timer>, ghost mid: Snapshot, ghost fired: seq<Timer>)
      requires Valid() && Accounted(0)
      modifies this, timers, timers.heap, known
      ensures Valid() && Accounted(0) && After(old(Now()), Now()) && loopDone == old(loopDone)
      ensures fresh(known - old(known)) && (timers.heap == old(timers.heap) || fresh(timers.heap))
      ensures Popped(old(Now()), popped, mid) && Fired(mid, mid.clock, fired, Now())
      ensures loopDone ==>
        && (mid.errors > old(errors) || mid.pendings == [])
        && (errors > mid.errors || NoneDue(timers.Contents(), mid.clock))
      ensures loopDone && errors == old(errors) ==> AllCalled(old(Now()), Now())
    {
      hide Work, Heapq.Valid, Heapq.Contents, After, Grew, Grown, Queued, Registered, CalledOf, RanOf, Sound,
           Accounted, Popped, Fired, NoneDue, AllCalled;
      ghost var was := Now();
      var okPendings;
      okPendings, popped := FirePendings();
      mid := Now();
      PoppedAfter(was, popped, mid);
      var okTimers;
      okTimers, fired := FireTimers();
      FiredAfter(mid, mid.clock, fired, Now());
      Onward(was, mid, Now());
      if loopDone && errors == old(errors) { TurnCalls(was, popped, mid, fired, Now()); }
    }

    /** One turn of the main loop's body: what FireAll says up to the snapshot end, then events, which run no timer.
        A turn in which not every pending call and due timer is called has seen one of those that ran raise. */
    method Turn(signal: bool)
      returns (ghost popped: seq<Timer>, ghost mid: Snapshot, ghost fired: seq<Timer>, ghost end: Snapshot)
      requires Valid() && Accounted(0)
      modifies this, timers, timers.heap, known
      ensures Valid() && Accounted(0) && After(old(Now()), Now())
      ensures fresh(known - old(known)) && (timers.heap == old(timers.heap) || fresh(timers.heap))
      ensures Popped(old(Now()), popped, mid) && Fired(mid, mid.clock, fired, end)
      ensures After(end, Now()) && Grown(end, Now())
      ensures old(loopDone) ==>
        && (mid.errors > old(errors) || mid.pendings == [])
        && (end.errors > mid.errors || NoneDue(end.items, mid.clock))
      ensures old(loopDone) ==>
        AllCalled(old(Now()), Now()) || exists t :: t in Now().ran && t !in old(Now()).ran && t in popped + fired
    {
      hide Work, Heapq.Valid, Heapq.Contents, After, Grew, Grown, Queued, Registered, CalledOf, RanOf, Sound,
           Accounted, AllCalled, Popped, Fired, NoneDue;
      ghost var was := Now();
      popped, mid, fired := FireAll();
      end := Now();
      LoopOnce();
      ghost var three := Now();
      Onwards(three);
      if signal && mayStop && !stopped { Stop(0); }
      Onward(end, three, Now());
      Onward(was, end, Now());
      if end.running {
        if end.errors == was.errors {
          CalledOn(was, end, Now());
        } else {
          RaisedIn(was, popped, mid, fired, end, Now());
        }
      }
    }

    /** run, followed for a number of turns: it stops before only when the server has been stopped, a new connection
        could not be set up, or nothing is left to wait for. */
    method Run(turns: nat) returns (made: nat)
      requires Valid() && Accounted(0)
      modifies this, timers, timers.heap, known
      ensures Valid() && Accounted(0) && After(old(Now()), Now()) && made <= turns
      ensures activecnt == |Work(handlers)| + |pendings| + timers.size
      ensures made < turns ==> !loopDone || (Work(handlers) == {} && pendings == [] && timers.size == 0)
      ensures made > 0 ==> Progress(old(Now()), Now())
      ensures old(loopDone) && !loopDone ==> stopped || mayBreak
      ensures stopped && !old(stopped) ==> mayStop
    {
      hide Work, Heapq.Valid, Heapq.Contents, After, Grown, Queued, Registered, CalledOf, RanOf, Sound, Progress,
           Popped, Fired, NoneDue, AllCalled;
      ghost var was := Now();
      Onwards(was);
      made := 0;
      while made < turns
        invariant made <= turns && Valid() && Accounted(0) && After(was, Now())
        invariant if made > 0 then Progress(was, Now()) else Now() == was
        invariant fresh(known - old(known)) && (timers.heap == old(timers.heap) || fresh(timers.heap))
      {
        if !loopDone || activecnt <= 0 { break; }
        ghost var prev := Now();
        var signal: bool := *;
        ghost var popped, mid, fired, end;
        popped, mid, fired, end := Turn(signal);
        if made == 0 { Progressed(was, popped + fired, Now()); } else { ProgressStays(was, prev, Now()); }
        Onward(was, prev, Now());
        made := made + 1;
      }
      WhyEnded(was, Now());
    }

    /** The loop's condition says that there is work left. */
    lemma LoopsWhileWork()
      requires Valid() && Accounted(0)
      ensures activecnt >= 0
      ensures activecnt > 0 <==>
        (exists fd :: fd in handlers && handlers[fd] != Stopping) || |pendings| > 0 || timers.size > 0
    {
      hide Heapq.Valid, Heapq.Contents, Queued, Sound, Registered;
      forall fd ensures fd in Work(handlers) <==> fd in handlers && handlers[fd] != Stopping {}
      if (exists fd :: fd in handlers && handlers[fd] != Stopping) {
        var fd :| fd in handlers && handlers[fd] != Stopping;
        assert fd in Work(handlers);
      }
      if Work(handlers) != {} {
        var fd :| fd in Work(handlers);
        assert fd in handlers && handlers[fd] != Stopping;
      }
    }
  }
}
