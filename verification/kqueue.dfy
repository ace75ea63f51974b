/** The kqueue backend's list of descriptors with changes to apply, threaded through _backend. */
module KqueueBackend {

  // ---- one int for the next descriptor and the old events ----

  const EV_LIMIT: nat := 256
  const FD_LIMIT: int := 0x80_0000

  /** An int's worth of x. */
  function Int32(x: int): int {
    (x + 0x8000_0000) % 0x1_0000_0000 - 0x8000_0000
  }

  /** BACKEND_BUILD, stored in an int. */
  function Build(next: int, events: int): int {
    Int32(next * 256 + events % 256)
  }

  /** BACKEND_GET_NEXT_FD: an arithmetic shift. */
  function NextFd(backend: int): int {
    backend / 256
  }

  /** BACKEND_GET_OLD_EVENTS. */
  function OldEvents(backend: int): (e: int)
    ensures 0 <= e < 256
  {
    backend % 256
  }

  /** Both parts come back, for the end marker too, and the word is never taken for "not changed". */
  lemma BackendRoundTrip(next: int, events: int)
    requires -1 <= next < FD_LIMIT && 0 <= events < 4
    ensures NextFd(Build(next, events)) == next && OldEvents(Build(next, events)) == events
    ensures Build(next, events) != -1
  {}

  /** The limit on descriptors is the exact one. */
  lemma BackendLimit(next: int, events: int)
    requires -1 <= next < 0x8000_0000 && 0 <= events < 4
    ensures NextFd(Build(next, events)) == next <==> next < FD_LIMIT
  {
    if next >= FD_LIMIT { assert NextFd(Build(next, events)) < FD_LIMIT; }
  }

  // ---- the list ----

  /** The descriptors from head on, each word holding the next one. */
  ghost predicate Threaded(pending: seq<int>, head: int, backend: seq<int>) {
    if pending == [] then head == -1
    else
      && head == pending[0] && 0 <= head < |backend|
      && backend[head] != -1 && OldEvents(backend[head]) < 4
      && head !in pending[1..]
      && Threaded(pending[1..], NextFd(backend[head]), backend)
  }

  /** The list does not depend on the words of descriptors that are not on it. */
  lemma {:induction false} ThreadedFrame(pending: seq<int>, head: int, b: seq<int>, c: seq<int>)
    requires Threaded(pending, head, b) && |b| == |c|
    requires forall fd :: fd in pending && 0 <= fd < |b| ==> c[fd] == b[fd]
    ensures Threaded(pending, head, c)
  {
    if pending != [] { ThreadedFrame(pending[1..], NextFd(b[head]), b, c); }
  }

  /** No descriptor is on the list twice, so that following it never comes back. */
  lemma {:induction false} NoneTwice(pending: seq<int>, head: int, backend: seq<int>, i: nat, j: nat)
    requires Threaded(pending, head, backend) && i < j < |pending|
    ensures pending[i] != pending[j]
    ensures 0 <= pending[i] < |backend| && NextFd(backend[pending[i]]) == pending[i + 1]
  {
    if i == 0 {
      assert pending[j] == pending[1..][j - 1];
      assert Threaded(pending[1..], NextFd(backend[head]), backend);
    } else {
      NoneTwice(pending[1..], NextFd(backend[head]), backend, i - 1, j - 1);
    }
  }

  /** Every word on the list names a change, and the list is shorter than the table. */
  lemma {:induction false} OnList(pending: seq<int>, head: int, backend: seq<int>)
    requires Threaded(pending, head, backend)
    ensures forall fd :: fd in pending ==> 0 <= fd < |backend| && backend[fd] != -1
    ensures head == -1 <==> pending == []
  {
    if pending != [] {
      assert pending == [pending[0]] + pending[1..];
      OnList(pending[1..], NextFd(backend[head]), backend);
    }
  }

  // ---- what is told to the kernel ----

  datatype Op = Disable | AddEnable

  datatype Change = Change(fd: int, op: Op, events: int)

  /** The entries for one descriptor. */
  function ChangesOf(fd: int, before: int, now: int): (cs: seq<Change>)
    ensures |cs| <= 2
  {
    if now == before then []
    else
      (if before != 0 then [Change(fd, Disable, before)] else [])
      + (if now != 0 then [Change(fd, AddEnable, now)] else [])
  }

  /** The entries for a list, in its order. */
  function Changes(pending: seq<int>, backend: seq<int>, events: seq<int>): seq<Change>
    requires |backend| == |events|
  {
    if pending == [] then []
    else (if 0 <= pending[0] < |backend| then ChangesOf(pending[0], OldEvents(backend[pending[0]]), events[pending[0]])
      else [])
         + Changes(pending[1..], backend, events)
  }

  lemma HeadFirst(pending: seq<int>, head: int, backend: seq<int>, events: seq<int>)
    requires |backend| == |events| && Threaded(pending, head, backend) && pending != []
    ensures 0 <= head < |backend| && Changes(pending, backend, events)
         == ChangesOf(head, OldEvents(backend[head]), events[head]) + Changes(pending[1..], backend, events)
  {}

  lemma {:induction false} ChangesFrame(pending: seq<int>, b: seq<int>, c: seq<int>, e: seq<int>)
    requires |b| == |c| == |e|
    requires forall fd :: fd in pending && 0 <= fd < |b| ==> c[fd] == b[fd]
    ensures Changes(pending, b, e) == Changes(pending, c, e)
  {
    if pending != [] { ChangesFrame(pending[1..], b, c, e); }
  }

  // ---- what the kernel watches then ----

  /** Reading and writing, as events says. */
  function Flags(events: int): (bool, bool) {
    (events % 2 == 1, events / 2 % 2 == 1)
  }

  /** One entry: what it names is no longer watched, or is watched. */
  function Told(watched: (bool, bool), c: Change): (bool, bool) {
    var (r, w) := Flags(c.events);
    if c.op == Disable then (watched.0 && !r, watched.1 && !w) else (watched.0 || r, watched.1 || w)
  }

  function WatchOf(m: map<int, (bool, bool)>, fd: int): (bool, bool) {
    if fd in m then m[fd] else (false, false)
  }

  function ToldAll(watched: map<int, (bool, bool)>, cs: seq<Change>): map<int, (bool, bool)> {
    if cs == [] then watched
    else
      var m := ToldAll(watched, cs[..|cs| - 1]);
      var c := cs[|cs| - 1];
      m[c.fd := Told(WatchOf(m, c.fd), c)]
  }

  lemma {:induction false} ToldMore(m: map<int, (bool, bool)>, a: seq<Change>, b: seq<Change>)
    ensures ToldAll(m, a + b) == ToldAll(ToldAll(m, a), b)
    decreases |b|
  {
    if b == [] {
      assert a + b == a;
    } else {
      ToldMore(m, a, b[..|b| - 1]);
      assert (a + b)[..|a + b| - 1] == a + b[..|b| - 1];
    }
  }

  lemma ToldTwo(m: map<int, (bool, bool)>, cs: seq<Change>)
    ensures |cs| == 1 ==> ToldAll(m, cs) == m[cs[0].fd := Told(WatchOf(m, cs[0].fd), cs[0])]
    ensures |cs| == 2 ==> ToldAll(m, cs) == ToldAll(ToldAll(m, cs[..1]), [cs[1]])
  {
    if |cs| == 1 { assert cs[..0] == []; }
    if |cs| == 2 {
      assert cs == cs[..1] + [cs[1]];
      ToldMore(m, cs[..1], [cs[1]]);
    }
  }

  /** The entries for one descriptor take the kernel from the events it had to those it has, and touch no other. */
  lemma OneTold(m: map<int, (bool, bool)>, fd: int, before: int, now: int)
    requires 0 <= before < 4 && 0 <= now < 4
    requires WatchOf(m, fd) == Flags(before)
    ensures var r := ToldAll(m, ChangesOf(fd, before, now));
      && WatchOf(r, fd) == Flags(now)
      && forall k :: k != fd ==> (k in r <==> k in m) && (k in r ==> r[k] == m[k])
  {
    var cs := ChangesOf(fd, before, now);
    ToldTwo(m, cs);
    if |cs| == 2 {
      ToldTwo(m, cs[..1]);
      ToldTwo(ToldAll(m, cs[..1]), [cs[1]]);
    }
  }

  /** The entries of the whole list make the kernel watch what each descriptor on it has now, and change nothing for the
      others. */
  lemma {:induction false} ListTold(m: map<int, (bool, bool)>, pending: seq<int>, head: int, backend: seq<int>,
                                    events: seq<int>)
    requires |backend| == |events| && Threaded(pending, head, backend)
    requires forall fd :: 0 <= fd < |events| ==> 0 <= events[fd] < 4
    requires forall fd :: fd in pending && 0 <= fd < |backend| ==> WatchOf(m, fd) == Flags(OldEvents(backend[fd]))
    ensures var r := ToldAll(m, Changes(pending, backend, events));
      && (forall fd :: fd in pending && 0 <= fd < |events| ==> WatchOf(r, fd) == Flags(events[fd]))
      && forall k :: k !in pending ==> (k in r <==> k in m) && (k in r ==> r[k] == m[k])
    decreases |pending|
  {
    hide Flags, ChangesOf, ToldAll;
    NothingTold(m);
    if pending != [] {
      var before, now := OldEvents(backend[head]), events[head];
      assert pending == [head] + pending[1..];
      HeadFirst(pending, head, backend, events);
      OneTold(m, head, before, now);
      var m1 := ToldAll(m, ChangesOf(head, before, now));
      ToldMore(m, ChangesOf(head, before, now), Changes(pending[1..], backend, events));
      forall fd | fd in pending[1..] && 0 <= fd < |backend|
        ensures WatchOf(m1, fd) == Flags(OldEvents(backend[fd]))
      {
        assert fd != head && fd in pending;
      }
      ListTold(m1, pending[1..], NextFd(backend[head]), backend, events);
    }
  }

  lemma NothingTold(m: map<int, (bool, bool)>)
    ensures ToldAll(m, []) == m
  {}

  /** The events argument of picoev_update_events_internal, flag by flag. */
  datatype Mask = Mask(rw: int, timeout: bool, add: bool, del: bool)

  class Loop {
    const maxFd: nat
    const backend: array<int>   // picoev.fds[fd]._backend
    const events: array<int>    // picoev.fds[fd].events
    const active: array<bool>   // picoev.fds[fd].loop_id is this loop's
    const changelist: array<Change>
    var changedFds: int
    /** Everything kevent was told. */
    var kernel: seq<Change>
    /** The list, first the last changed. */
    ghost var pending: seq<int>

    ghost predicate Valid()
      reads this, backend, events, active
    {
      && 0 < maxFd <= FD_LIMIT && backend.Length == events.Length == active.Length == maxFd
        && changelist.Length == EV_LIMIT
      && backend != events
      && Threaded(pending, changedFds, backend[..])
      && (forall fd :: 0 <= fd < maxFd ==> 0 <= events[fd] < 4)
      && (forall fd :: 0 <= fd < maxFd && active[fd] ==> (fd in pending <==> backend[fd] != -1))
      && (forall fd :: fd in pending ==> 0 <= fd < maxFd && active[fd])
    }

    /** picoev_init and picoev_create_loop: all words start at 0. */
    constructor (maxFd: nat)
      requires 0 < maxFd <= FD_LIMIT
      ensures Valid() && pending == [] && kernel == [] && this.maxFd == maxFd
      ensures fresh(backend) && fresh(events) && fresh(active) && fresh(changelist)
      ensures forall fd :: 0 <= fd < maxFd ==> !active[fd]
    {
      this.maxFd := maxFd;
      backend := new int[maxFd](_ => 0);
      events := new int[maxFd](_ => 0);
      active := new bool[maxFd](_ => false);
      changelist := new Change[EV_LIMIT](_ => Change(0, Disable, 0));
      changedFds, kernel, pending := -1, [], [];
    }

    /** SET: one more entry of the changelist. */
    method Set(op: Op, ev: int, clOff: nat) returns (next: nat)
      requires clOff < changelist.Length
      modifies changelist
      ensures next == clOff + 1
      ensures changelist[..next] == old(changelist[..clOff]) + [Change(changedFds, op, ev)]
    {
      changelist[clOff] := Change(changedFds, op, ev);
      next := clOff + 1;
    }

    /** apply_pending_changes: every pending change goes to the kernel or stays in the first clOff entries
        of the changelist, in list order; no index goes past its end. */
    method ApplyPendingChanges(applyAll: bool) returns (clOff: nat)
      requires Valid()
      modifies this`changedFds, this`kernel, this`pending, backend, changelist
      ensures Valid() && pending == [] && clOff < EV_LIMIT - 1 && (applyAll ==> clOff == 0)
      ensures kernel + changelist[..clOff] == old(kernel) + old(Changes(pending, backend[..], events[..]))
      ensures forall fd :: 0 <= fd < maxFd ==> backend[fd] == if fd in old(pending) then -1 else old(backend[fd])
    {
      clOff := 0;
      ghost var all := kernel + Changes(pending, backend[..], events[..]);
      while changedFds != -1
        invariant Valid() && clOff < EV_LIMIT - 1
        invariant (kernel + changelist[..clOff]) + Changes(pending, backend[..], events[..]) == all
        invariant forall fd :: fd in pending ==> fd in old(pending)
        invariant forall fd :: 0 <= fd < maxFd ==>
          backend[fd] == if fd in old(pending) && fd !in pending then -1 else old(backend[fd])
        decreases |pending|
      {
        clOff := ApplyFirst(clOff);
      }
      if applyAll && clOff != 0 {
        kernel := kernel + changelist[..clOff];
        clOff := 0;
      }
    }

    /** The body of its loop. */
    method ApplyFirst(from: nat) returns (clOff: nat)
      requires Valid() && changedFds != -1 && from < EV_LIMIT - 1
      modifies this`changedFds, this`kernel, this`pending, backend, changelist
      ensures Valid() && clOff < EV_LIMIT - 1
      ensures |old(pending)| > 0 && pending == old(pending)[1..]
      ensures (kernel + changelist[..clOff]) + Changes(pending, backend[..], events[..])
           == (old(kernel) + old(changelist[..from])) + old(Changes(pending, backend[..], events[..]))
      ensures forall fd :: 0 <= fd < maxFd ==> backend[fd] == if fd == old(pending)[0] then -1 else old(backend[fd])
    {
      hide ChangesOf, Threaded;
      OnList(pending, changedFds, backend[..]);
      HeadFirst(pending, changedFds, backend[..], events[..]);
      var fd := changedFds;
      clOff := Tell(fd, from);
      Unlink(fd);
    }

    /** The entries for the head of the list; a full changelist is handed over. */
    method Tell(fd: int, from: nat) returns (clOff: nat)
      requires 0 <= fd < backend.Length == events.Length && fd == changedFds && changelist.Length == EV_LIMIT
        && from < EV_LIMIT - 1
      modifies this`kernel, changelist
      ensures clOff < EV_LIMIT - 1
      ensures kernel + changelist[..clOff]
        == old(kernel) + old(changelist[..from]) + ChangesOf(fd, OldEvents(backend[fd]), events[fd])
    {
      clOff := from;
      var oldEvents := OldEvents(backend[fd]);
      if events[fd] != oldEvents {
        if oldEvents != 0 {
          clOff := Set(Disable, oldEvents, clOff);
        }
        if events[fd] != 0 {
          clOff := Set(AddEnable, events[fd], clOff);
        }
        assert changelist[..clOff] == old(changelist[..from]) + ChangesOf(fd, oldEvents, events[fd]);
        if clOff + 1 >= changelist.Length {
          kernel := kernel + changelist[..clOff];
          clOff := 0;
        }
      }
    }

    /** Its last two statements: the head leaves the list. */
    method Unlink(fd: int)
      requires Valid() && fd == changedFds && changedFds != -1
      modifies this`changedFds, this`pending, backend
      ensures Valid() && |old(pending)| > 0 && fd == old(pending)[0] && pending == old(pending)[1..]
      ensures Changes(pending, backend[..], events[..]) == Changes(pending, old(backend[..]), events[..])
      ensures forall i :: 0 <= i < maxFd ==> backend[i] == if i == fd then -1 else old(backend[i])
    {
      ghost var b := backend[..];
      OnList(pending, changedFds, b);
      changedFds := NextFd(backend[fd]);
      backend[fd] := -1;
      pending := pending[1..];
      assert old(pending) == [fd] + pending;
      ThreadedFrame(pending, changedFds, b, backend[..]);
      forall i | i in pending ensures 0 <= i < maxFd && active[i] {
        assert i in old(pending);
      }
      forall i | 0 <= i < maxFd && active[i] ensures i in pending <==> backend[i] != -1 {
        assert i in old(pending) <==> i == fd || i in pending;
        if i != fd { assert backend[i] == b[i]; }
      }
      ChangesFrame(pending, b, backend[..], events[..]);
    }

    /** picoev_update_events_internal.  A descriptor is put on the list with its present events unless it
        is on it; an argument of PICOEV_DEL alone does nothing for one that is not on it. */
    method UpdateEvents(fd: int, mask: Mask)
      requires Valid() && 0 <= fd < maxFd && active[fd] && 0 <= mask.rw < 4
      requires mask.add ==> fd !in pending
      modifies this`changedFds, this`kernel, this`pending, backend, events, changelist
      ensures Valid()
      ensures var before := if mask.add then -1 else old(backend[fd]);
        var nothing := if mask == Mask(0, false, false, true) then before == -1 else mask.rw == old(events[fd]);
        if nothing then
          pending == old(pending) && kernel == old(kernel) && events[..] == old(events[..])
        else
          && events[..] == old(events[..])[fd := mask.rw]
          && (mask.del ==> pending == [])
          && (!mask.del ==> pending == if before == -1 then [fd] + old(pending) else old(pending))
          && (!mask.del ==> kernel == old(kernel))
      ensures mask == Mask(0, false, false, true) && old(backend[fd]) != -1 ==>
        kernel == old(kernel) + Changes(old(pending), old(backend[..]), old(events[..])[fd := 0])
    {
      hide Threaded, Changes, Build, NextFd;
      if mask.add {
        SetWord(fd, -1);
      }
      if if mask == Mask(0, false, false, true) then backend[fd] == -1 else mask.rw == events[fd] {
        return;
      }
      if backend[fd] == -1 {
        Link(fd);
      }
      events[fd] := mask.rw;
      assert events[..] == old(events[..])[fd := mask.rw];
      if mask.del {
        var _ := ApplyPendingChanges(true);
      }
    }

    /** _backend = -1 for a descriptor that is not on the list. */
    method SetWord(fd: int, word: int)
      requires Valid() && 0 <= fd < maxFd && active[fd] && fd !in pending && word == -1
      modifies backend
      ensures Valid() && backend[..] == old(backend[..])[fd := word]
    {
      ghost var b := backend[..];
      backend[fd] := word;
      ThreadedFrame(pending, changedFds, b, backend[..]);
    }

    /** A descriptor goes to the head of the list. */
    method Link(fd: int)
      requires Valid() && 0 <= fd < maxFd && active[fd] && backend[fd] == -1
      modifies this`changedFds, this`pending, backend
      ensures Valid() && pending == [fd] + old(pending) && changedFds == fd
      ensures backend[..] == old(backend[..])[fd := Build(old(changedFds), events[fd])]
      ensures OldEvents(backend[fd]) == events[fd]
    {
      ghost var b := backend[..];
      HeadRange(pending, changedFds, b);
      BackendRoundTrip(changedFds, events[fd]);
      backend[fd] := Build(changedFds, events[fd]);
      ThreadedFrame(pending, changedFds, b, backend[..]);
      ghost var was := pending;
      pending := [fd] + pending;
      assert pending[1..] == was;
      changedFds := fd;
    }

    /** What picoev_add does with the list: the descriptor is not registered before. */
    method Add(fd: int, rw: int, timeout: bool)
      requires Valid() && 0 <= fd < maxFd && !active[fd] && 0 <= rw < 4
      modifies this`changedFds, this`kernel, this`pending, backend, events, active, changelist
      ensures Valid() && kernel == old(kernel) && events[fd] == rw && active[..] == old(active[..])[fd := true]
      ensures pending == if rw == 0 then old(pending) else [fd] + old(pending)
    {
      hide Threaded, Changes, Build, NextFd;
      Register(fd);
      UpdateEvents(fd, Mask(rw, timeout, true, false));
    }

    /** loop_id and events are set before the backend looks at them; the word it clears first is cleared
        here, so that the list is in order in between. */
    method Register(fd: int)
      requires Valid() && 0 <= fd < maxFd && !active[fd]
      modifies backend, events, active
      ensures Valid() && events[..] == old(events[..])[fd := 0] && active[..] == old(active[..])[fd := true]
      ensures backend[..] == old(backend[..])[fd := -1]
    {
      ghost var b := backend[..];
      active[fd] := true;
      events[fd] := 0;
      backend[fd] := -1;
      ThreadedFrame(pending, changedFds, b, backend[..]);
    }

    /** What picoev_set_events does with it. */
    method SetEvents(fd: int, rw: int)
      requires Valid() && 0 <= fd < maxFd && active[fd] && 0 <= rw < 4
      modifies this`changedFds, this`kernel, this`pending, backend, events, changelist
      ensures Valid() && kernel == old(kernel) && events[fd] == rw
      ensures pending == if rw == old(events[fd]) || fd in old(pending) then old(pending) else [fd] + old(pending)
    {
      hide Threaded, Changes, Build, NextFd;
      UpdateEvents(fd, Mask(rw, false, false, false));
    }

    /** What picoev_del does with it: a descriptor with a pending change takes the whole list with it. */
    method Del(fd: int)
      requires Valid() && 0 <= fd < maxFd && active[fd]
      modifies this`changedFds, this`kernel, this`pending, backend, events, active, changelist
      ensures Valid() && fd !in pending && active[..] == old(active[..])[fd := false]
      ensures pending == if fd in old(pending) then [] else old(pending)
      ensures kernel == old(kernel) + if fd in old(pending)
        then Changes(old(pending), old(backend[..]), old(events[..])[fd := 0]) else []
    {
      hide Threaded, Changes, Build, NextFd;
      UpdateEvents(fd, Mask(0, false, false, true));
      active[fd] := false;
    }

    /** The part of picoev_poll_once_internal before the events: kevent gets what is left over. */
    method PollOnce()
      requires Valid()
      modifies this`changedFds, this`kernel, this`pending, backend, changelist
      ensures Valid() && pending == []
      ensures kernel == old(kernel) + old(Changes(pending, backend[..], events[..]))
    {
      hide Threaded, Changes, Build, NextFd;
      var clOff := ApplyPendingChanges(false);
      kernel := kernel + changelist[..clOff];
    }
  }

  lemma HeadRange(pending: seq<int>, head: int, backend: seq<int>)
    requires Threaded(pending, head, backend)
    ensures -1 <= head < |backend| || head == -1
  {}
}
