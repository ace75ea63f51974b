/** The timeout wheel of picoev: 128 slots, each a two-level bitmap over the file descriptors. */
module TimeoutWheel {
  import opened Bits

  const SLOTS: nat := 128
  const UNUSED := 255

  function RoundUp(v: nat, d: nat): nat
    requires d > 0
  {
    (v + d - 1) / d * d
  }

  /** Division of time_t by int, which truncates toward zero. */
  function TruncDiv(x: int, d: int): int
    requires d > 0
  {
    if x >= 0 then x / d else -((-x) / d)
  }

  /** The slot distance: a size_t, so a negative quotient is huge and clamps like any other. */
  function Distance(now: int, secs: int, baseTime: int, resolution: int): (d: nat)
    requires resolution > 0
    ensures d < SLOTS
  {
    var q := TruncDiv(now + secs - baseTime, resolution);
    if q < 0 || q >= SLOTS then SLOTS - 1 else q
  }

  /** The descriptors below lo that idx holds in slot s, in ascending order. */
  function Armed(idx: seq<int>, s: int, lo: nat): seq<nat>
    requires lo <= |idx|
  {
    if lo == 0 then []
    else if idx[lo - 1] == s then Armed(idx, s, lo - 1) + [lo - 1] else Armed(idx, s, lo - 1)
  }

  lemma {:induction false} ArmedIs(idx: seq<int>, s: int, lo: nat)
    requires lo <= |idx|
    ensures forall f :: f in Armed(idx, s, lo) <==> 0 <= f < lo && idx[f] == s
    ensures forall a, b :: 0 <= a < b < |Armed(idx, s, lo)| ==> Armed(idx, s, lo)[a] < Armed(idx, s, lo)[b]
  {
    if lo > 0 {
      ArmedIs(idx, s, lo - 1);
      var t := Armed(idx, s, lo - 1);
      forall a | 0 <= a < |t| ensures t[a] < lo - 1 { assert t[a] in t; }
    }
  }

  lemma {:induction false} ArmedSkip(idx: seq<int>, s: int, lo: nat, hi: nat)
    requires lo <= hi <= |idx|
    requires forall f :: lo <= f < hi ==> idx[f] != s
    ensures Armed(idx, s, hi) == Armed(idx, s, lo)
    decreases hi
  {
    if lo < hi {
      ArmedSkip(idx, s, lo, hi - 1);
    }
  }

  /** Armed below k, where k may lie past the last descriptor. */
  function ArmedTo(idx: seq<int>, s: int, k: nat): seq<nat> {
    Armed(idx, s, if k < |idx| then k else |idx|)
  }

  lemma ArmedGap(idx: seq<int>, s: int, lo: nat, hi: nat)
    requires lo <= hi
    requires forall f :: lo <= f < hi && f < |idx| ==> idx[f] != s
    ensures ArmedTo(idx, s, hi) == ArmedTo(idx, s, lo)
  {
    if lo < |idx| {
      ArmedSkip(idx, s, lo, if hi < |idx| then hi else |idx|);
    }
  }

  /** w is word j of the bitmap of slot s. */
  predicate WordIs(w: bv16, j: nat, idx: seq<int>, s: int) {
    forall b: nat {:trigger Bit(w, b)} :: b < 16 ==> (Bit(w, b) <==> 16 * j + b < |idx| && idx[16 * j + b] == s)
  }

  lemma EmptyWord(j: nat, idx: seq<int>, s: int)
    requires WordIs(0, j, idx, s)
    ensures forall f :: 16 * j <= f < 16 * j + 16 && f < |idx| ==> idx[f] != s
  {
    hide Bit;
    forall f | 16 * j <= f < 16 * j + 16 && f < |idx| ensures idx[f] != s {
      NoBit(f - 16 * j);
      assert Bit(0, f - 16 * j) <==> 16 * j + (f - 16 * j) < |idx| && idx[16 * j + (f - 16 * j)] == s;
    }
  }

  /** One run of a callback for a timeout: its descriptor, and what the loop's clock said. */
  datatype Firing = Firing(fd: nat, at: int)

  /** The callbacks of these descriptors, all run at one time. */
  function At(fs: seq<nat>, t: int): (r: seq<Firing>)
    ensures |r| == |fs|
  {
    seq(|fs|, i requires 0 <= i < |fs| => Firing(fs[i], t))
  }

  lemma AtNext(c: seq<Firing>, fs: seq<nat>, k: nat, t: int)
    ensures c + At(fs + [k], t) == (c + At(fs, t)) + [Firing(k, t)]
  {
  }

  /** A callback of f is among c. */
  predicate Fired(c: seq<Firing>, f: nat) {
    exists i :: 0 <= i < |c| && c[i].fd == f
  }

  /** No descriptor twice. */
  predicate Once(c: seq<Firing>) {
    forall i, j :: 0 <= i < j < |c| ==> c[i].fd != c[j].fd
  }

  lemma NoneTwice(c: seq<Firing>)
    ensures Once(c[|c|..])
  {
  }

  /** Still once each, when the descriptors fs, none of whom has been called, follow in ascending order. */
  lemma OnceMore(c: seq<Firing>, c1: seq<Firing>, fs: seq<nat>, t: int)
    requires c <= c1 && Once(c1[|c|..]) && (forall f :: f in fs ==> !Fired(c1[|c|..], f))
    requires forall a, b :: 0 <= a < b < |fs| ==> fs[a] < fs[b]
    ensures Once((c1 + At(fs, t))[|c|..])
  {
    var was, news := c1[|c|..], (c1 + At(fs, t))[|c|..];
    assert news == was + At(fs, t);
    forall i, j | 0 <= i < j < |news| ensures news[i].fd != news[j].fd {
      if j >= |was| {
        assert news[j].fd == fs[j - |was|];
        if i < |was| { assert Fired(was, was[i].fd); } else { assert news[i].fd == fs[i - |was|]; }
      }
    }
  }

  lemma NoneFired(c: seq<Firing>)
    ensures forall f: nat :: !Fired(c[|c|..], f)
  {
  }

  /** Who has been called since c, once the descriptors fs follow the callbacks c1. */
  lemma FiredMore(c: seq<Firing>, c1: seq<Firing>, fs: seq<nat>, t: int)
    requires c <= c1
    ensures forall f: nat {:trigger Fired((c1 + At(fs, t))[|c|..], f)} ::
      Fired((c1 + At(fs, t))[|c|..], f) <==> Fired(c1[|c|..], f) || f in fs
    ensures forall i :: |c1| <= i < |c1 + At(fs, t)| ==> (c1 + At(fs, t))[i].at == t
  {
    var news := (c1 + At(fs, t))[|c|..];
    assert news == c1[|c|..] + At(fs, t);
    forall f: nat ensures Fired(news, f) <==> Fired(c1[|c|..], f) || f in fs {
      if Fired(c1[|c|..], f) {
        var i :| 0 <= i < |c1[|c|..]| && c1[|c|..][i].fd == f;
        assert news[i].fd == f;
      }
      if f in fs {
        var i :| 0 <= i < |fs| && fs[i] == f;
        assert news[|c1| - |c| + i].fd == f;
      }
    }
  }

  lemma FiredSince(c: seq<Firing>, from: nat, mid: nat, f: nat)
    requires from <= mid <= |c|
    ensures Fired(c[from..], f) <==> Fired(c[from..mid], f) || Fired(c[mid..], f)
  {
    if Fired(c[from..], f) {
      var i :| 0 <= i < |c[from..]| && c[from..][i].fd == f;
      if i < mid - from { assert c[from..mid][i].fd == f; } else { assert c[mid..][i - (mid - from)].fd == f; }
    }
    if Fired(c[from..mid], f) {
      var i :| 0 <= i < |c[from..mid]| && c[from..mid][i].fd == f;
      assert c[from..][i].fd == f;
    }
    if Fired(c[mid..], f) {
      var i :| 0 <= i < |c[mid..]| && c[mid..][i].fd == f;
      assert c[from..][i + (mid - from)].fd == f;
    }
  }

  /** What was not called before mid was called at t. */
  lemma OnlyNow(c: seq<Firing>, from: nat, mid: nat, f: nat, t: int)
    requires from <= mid <= |c| && forall i :: mid <= i < |c| ==> c[i].at == t
    ensures !Fired(c[from..mid], f) ==> forall i :: from <= i < |c| && c[i].fd == f ==> c[i].at == t
  {
    if !Fired(c[from..mid], f) {
      forall i | from <= i < mid ensures c[i].fd != f { assert c[from..mid][i - from] == c[i]; }
    }
  }

  lemma NotFired(c: seq<Firing>, from: nat, f: nat)
    requires from <= |c|
    ensures !Fired(c[from..], f) ==> forall i :: from <= i < |c| ==> c[i].fd != f
  {
    if !Fired(c[from..], f) {
      forall i | from <= i < |c| ensures c[i].fd != f { assert c[from..][i - from] == c[i]; }
    }
  }

  class Loop {
    const maxFd: nat
    const vecSize: nat
    const vovSize: nat
    const resolution: int
    const loopId: array<nat>
    const timeoutIdx: array<int>
    const vec: array2<bv16>
    const vecOfVec: array2<bv16>
    var baseIdx: nat
    var baseTime: int
    var now: int
    /** Inside the handler, whose current slot is being taken apart. */
    ghost var draining: bool
    /** The base time at which the slot of each armed descriptor is taken. */
    ghost var due: seq<int>
    /** The callbacks run so far, in order, as the application sees them. */
    var called: seq<Firing>

    const LOOP := 1

    ghost predicate Shape()
      reads this`baseIdx, this`due
    {
      && resolution > 0
      && loopId.Length == timeoutIdx.Length == maxFd
      && vec.Length0 == vecOfVec.Length0 == SLOTS && vec.Length1 == vecSize && vecOfVec.Length1 == vovSize
      && maxFd <= 16 * vecSize && vecSize <= 16 * vovSize
      && vec != vecOfVec && (loopId as object) != (timeoutIdx as object)
      && (loopId as object) !in {vec as object, vecOfVec as object}
      && (timeoutIdx as object) !in {vec as object, vecOfVec as object}
      && (this as object) !in {vec as object, vecOfVec as object, loopId as object, timeoutIdx as object}
      && baseIdx < SLOTS
      && |due| == maxFd
    }

    /** Row i of the bitmap is the set of descriptors idx puts in slot i. */
    ghost predicate RowFor(i: nat, idx: seq<int>)
      requires Shape() && i < SLOTS && |idx| == maxFd
      reads this`baseIdx, this`due, vec
    {
      forall j: nat, b: nat {:trigger Bit(vec[i, j], b)} :: j < vecSize && b < 16 ==>
        (Bit(vec[i, j], b) <==> 16 * j + b < maxFd && idx[16 * j + b] == i)
    }

    /** A summary bit is set exactly when its word is not zero. */
    ghost predicate Summary(i: nat)
      requires Shape() && i < SLOTS
      reads this`baseIdx, this`due, vec, vecOfVec
    {
      forall m: nat, c: nat {:trigger Bit(vecOfVec[i, m], c)} :: m < vovSize && c < 16 ==>
        (Bit(vecOfVec[i, m], c) <==> 16 * m + c < vecSize && vec[i, 16 * m + c] != 0)
    }

    /** The base time at which slot i is taken, seen from now. */
    ghost function SlotTime(i: int): int
      reads this`baseTime, this`baseIdx
    {
      baseTime + (i - baseIdx) % SLOTS * resolution
    }

    /** The wheel and the plain map from descriptors to slots say the same. */
    ghost predicate Valid()
      reads this`baseIdx, this`baseTime, this`now, this`draining, this`due, loopId, timeoutIdx, vec, vecOfVec
    {
      && Shape()
      && baseTime <= now
      && (draining ==> baseTime <= now - resolution)
      && (forall f :: 0 <= f < maxFd ==> timeoutIdx[f] == UNUSED || 0 <= timeoutIdx[f] < SLOTS)
      && (forall f :: 0 <= f < maxFd ==> loopId[f] == 0 || loopId[f] == LOOP)
      && (forall f :: 0 <= f < maxFd && timeoutIdx[f] != UNUSED ==>
        loopId[f] == LOOP && due[f] == SlotTime(timeoutIdx[f]))
      && (forall i: nat {:trigger RowFor(i, timeoutIdx[..])} :: i < SLOTS && !(draining && i == baseIdx) ==>
            RowFor(i, timeoutIdx[..]) && Summary(i))
    }

    /** No slot is overdue: what every handler run leaves behind. */
    predicate Settled()
      reads this`now, this`baseTime
    {
      now - resolution < baseTime
    }

    /** The slot a call with these seconds picks. */
    ghost function SlotFor(secs: int): int
      requires resolution > 0
      reads this`baseIdx, this`baseTime, this`now
    {
      if secs == 0 then UNUSED else (baseIdx + Distance(now, secs, baseTime, resolution)) % SLOTS
    }

    /** Every word of the wheel but word j of slot i is as it was. */
    twostate predicate OnlyWord(i: nat, j: nat)
      requires Shape() && old(Shape())
      reads this`baseIdx, this`due, vec
    {
      forall r: nat, k: nat {:trigger vec[r, k]} :: r < SLOTS && k < vecSize && (r != i || k != j) ==>
        vec[r, k] == old(vec[r, k])
    }

    twostate predicate OnlySummary(i: nat, m: nat)
      requires Shape() && old(Shape())
      reads this`baseIdx, this`due, vecOfVec
    {
      forall r: nat, k: nat {:trigger vecOfVec[r, k]} :: r < SLOTS && k < vovSize && (r != i || k != m) ==>
        vecOfVec[r, k] == old(vecOfVec[r, k])
    }

    /** The summary of slot i, the bit of word j aside. */
    ghost predicate SummaryBut(i: nat, j: nat)
      requires Shape() && i < SLOTS
      reads this`baseIdx, this`due, vec, vecOfVec
    {
      forall m: nat, c: nat {:trigger Bit(vecOfVec[i, m], c)} :: m < vovSize && c < 16 && 16 * m + c != j ==>
        (Bit(vecOfVec[i, m], c) <==> 16 * m + c < vecSize && vec[i, 16 * m + c] != 0)
    }

    method PutWord(i: nat, fd: nat, on: bool, ghost idx: seq<int>)
      requires Shape() && i < SLOTS && fd < maxFd && |idx| == maxFd && RowFor(i, idx) && Summary(i)
      modifies vec
      ensures Shape() && RowFor(i, idx[fd := if on then i else UNUSED]) && SummaryBut(i, fd / 16)
      ensures OnlyWord(i, fd / 16)
      ensures on ==> vec[i, fd / 16] != 0
      ensures old(vec[i, fd / 16]) == 0 && !on ==> vec[i, fd / 16] == 0
    {
      hide Mask, Bit, With, Without;
      var vi, b0 := fd / 16, fd % 16;
      var w := vec[i, vi];
      vec[i, vi] := if on then With(w, b0) else Without(w, b0);
      WithNotZero(w, b0);
      ghost var idx' := idx[fd := if on then i else UNUSED];
      forall j: nat, b: nat | j < vecSize && b < 16
        ensures Bit(vec[i, j], b) <==> 16 * j + b < maxFd && idx'[16 * j + b] == i
      {
        if j == vi { SetClear(w, b0, b); }
      }
    }

    method PutSummary(i: nat, j: nat, on: bool)
      requires Shape() && i < SLOTS && j < vecSize && SummaryBut(i, j) && on == (vec[i, j] != 0)
      modifies vecOfVec
      ensures Shape() && Summary(i) && OnlySummary(i, j / 16)
    {
      hide Mask, Bit, With, Without;
      var u := vecOfVec[i, j / 16];
      vecOfVec[i, j / 16] := if on then With(u, j % 16) else Without(u, j % 16);
      forall m: nat, c: nat | m < vovSize && c < 16
        ensures Bit(vecOfVec[i, m], c) <==> 16 * m + c < vecSize && vec[i, 16 * m + c] != 0
      {
        if m == j / 16 { SetClear(u, j % 16, c); }
      }
    }

    /** Every row but row i is as it was. */
    twostate predicate OtherRows(i: int)
      requires Shape() && old(Shape())
      reads this`baseIdx, this`due, vec, vecOfVec
    {
      && (forall r: nat, k: nat {:trigger vec[r, k]} :: r < SLOTS && k < vecSize && r != i ==>
        vec[r, k] == old(vec[r, k]))
      && (forall r: nat, k: nat {:trigger vecOfVec[r, k]} :: r < SLOTS && k < vovSize && r != i ==>
            vecOfVec[r, k] == old(vecOfVec[r, k]))
    }

    method SetBitOf(i: nat, fd: nat, ghost idx: seq<int>)
      requires Shape() && i < SLOTS && fd < maxFd && |idx| == maxFd && RowFor(i, idx) && Summary(i)
      modifies vec, vecOfVec
      ensures Shape() && RowFor(i, idx[fd := i]) && Summary(i) && OtherRows(i)
    {
      hide Bit, With, Without;
      PutWord(i, fd, true, idx);
      PutSummary(i, fd / 16, true);
    }

    method ClearBitOf(i: nat, fd: nat, ghost idx: seq<int>)
      requires Shape() && i < SLOTS && fd < maxFd && |idx| == maxFd && RowFor(i, idx) && Summary(i)
      modifies vec, vecOfVec
      ensures Shape() && RowFor(i, idx[fd := UNUSED]) && Summary(i) && OtherRows(i)
    {
      hide Bit, With, Without;
      PutWord(i, fd, false, idx);
      if vec[i, fd / 16] == 0 {
        PutSummary(i, fd / 16, false);
      }
    }

    /** The first half of picoev_set_timeout: out of the old slot. */
    method Disarm(fd: nat)
      requires Valid() && fd < maxFd && timeoutIdx[fd] != UNUSED
      requires draining ==> timeoutIdx[fd] != baseIdx
      modifies timeoutIdx, vec, vecOfVec
      ensures Valid() && timeoutIdx[..] == old(timeoutIdx[..])[fd := UNUSED]
      ensures OtherRows(old(timeoutIdx[fd]))
    {
      hide Bit, SlotTime;
      ghost var a := timeoutIdx[..];
      var i := timeoutIdx[fd];
      assert RowFor(i, a) && Summary(i);
      ClearBitOf(i, fd, a);
      timeoutIdx[fd] := UNUSED;
      assert timeoutIdx[..] == a[fd := UNUSED];
      forall r: nat | r < SLOTS && !(draining && r == baseIdx)
        ensures RowFor(r, timeoutIdx[..]) && Summary(r)
      {
        assert old(RowFor(r, a) && Summary(r));
      }
    }

    /** The second half: into the slot the seconds ask for. */
    method Arm(fd: nat, secs: int)
      requires Valid() && fd < maxFd && timeoutIdx[fd] == UNUSED && loopId[fd] == LOOP && secs != 0
      requires draining ==> SlotFor(secs) != baseIdx
      modifies this`due, timeoutIdx, vec, vecOfVec
      ensures Valid() && timeoutIdx[..] == old(timeoutIdx[..])[fd := SlotFor(secs)]
      ensures due == old(due)[fd := baseTime + Distance(now, secs, baseTime, resolution) * resolution]
      ensures OtherRows(SlotFor(secs))
    {
      hide Bit, Distance, SlotTime;
      ghost var a := timeoutIdx[..];
      var delta := Distance(now, secs, baseTime, resolution);
      var i := (baseIdx + delta) % SLOTS;
      assert RowFor(i, a) && Summary(i);
      SetBitOf(i, fd, a);
      timeoutIdx[fd] := i;
      due := due[fd := baseTime + delta * resolution];
      SlotTimeIs(delta);
      assert timeoutIdx[..] == a[fd := i];
      forall r: nat | r < SLOTS && !(draining && r == baseIdx)
        ensures RowFor(r, timeoutIdx[..]) && Summary(r)
      {
        assert old(RowFor(r, a) && Summary(r));
      }
    }

    lemma SlotTimeIs(delta: nat)
      requires baseIdx < SLOTS && delta < SLOTS
      ensures SlotTime((baseIdx + delta) % SLOTS) == baseTime + delta * resolution
    {
      assert ((baseIdx + delta) % SLOTS - baseIdx) % SLOTS == delta;
    }

    /** picoev_set_timeout. */
    method SetTimeout(fd: nat, secs: int)
      requires Valid() && fd < maxFd && loopId[fd] == LOOP
      requires draining ==> timeoutIdx[fd] != baseIdx && SlotFor(secs) != baseIdx
      modifies this`due, timeoutIdx, vec, vecOfVec
      ensures Valid() && timeoutIdx[..] == old(timeoutIdx[..])[fd := SlotFor(secs)]
      ensures due == if secs == 0 then old(due)
                     else old(due)[fd := baseTime + Distance(now, secs, baseTime, resolution) * resolution]
      ensures draining ==> RowUntouched()
    {
      hide Bit, RowFor, Summary, Distance, SlotTime, Valid;
      ValidShape();
      if timeoutIdx[fd] != UNUSED {
        Disarm(fd);
      }
      if secs != 0 {
        Arm(fd, secs);
      }
      ValidShape();
    }

    /** The bitmaps of the slot being taken apart are as they were. */
    twostate predicate RowUntouched()
      requires Shape() && old(Shape())
      reads this`baseIdx, this`due, vec, vecOfVec
    {
      && (forall k: nat {:trigger vec[baseIdx, k]} :: k < vecSize ==> vec[baseIdx, k] == old(vec[baseIdx, k]))
      && (forall k: nat {:trigger vecOfVec[baseIdx, k]} :: k < vovSize ==>
        vecOfVec[baseIdx, k] == old(vecOfVec[baseIdx, k]))
    }

    lemma ValidShape()
      requires Valid()
      ensures Shape() && baseTime <= now
    {
    }

    /** Arming a positive number of seconds inside the handler never picks the slot being taken apart. */
    lemma NeverCurrent(secs: int)
      requires Shape() && draining && baseTime <= now - resolution && secs > 0
      ensures SlotFor(secs) != baseIdx
    {
      var x := now + secs - baseTime;
      DivAtLeast(x, resolution);
      assert 1 <= Distance(now, secs, baseTime, resolution) < SLOTS;
    }

    /** picoev_add; ok is what the backend answers. */
    method Add(fd: int, secs: int, ok: bool) returns (r: int)
      requires Valid()
      requires 0 <= fd < maxFd ==> loopId[fd] == 0
      requires draining ==> secs >= 0
      modifies this`due, loopId, timeoutIdx, vec, vecOfVec
      ensures Valid() && (r == 0 <==> 0 <= fd < maxFd && ok)
      ensures r == 0 ==>
        && loopId[..] == old(loopId[..])[fd := LOOP]
        && timeoutIdx[..] == old(timeoutIdx[..])[fd := SlotFor(secs)]
        && due == if secs == 0 then old(due)
                  else old(due)[fd := baseTime + Distance(now, secs, baseTime, resolution) * resolution]
      ensures r != 0 ==>
        r == -1 && loopId[..] == old(loopId[..]) && timeoutIdx[..] == old(timeoutIdx[..]) && due == old(due)
      ensures draining ==> RowUntouched()
    {
      hide Bit, SlotTime, Distance;
      if !(0 <= fd < maxFd) { return -1; }
      assert timeoutIdx[fd] == UNUSED;
      if !ok {
        loopId[fd] := LOOP;
        loopId[fd] := 0;
        assert loopId[..] == old(loopId[..]);
        forall r: nat | r < SLOTS && !(draining && r == baseIdx)
          ensures RowFor(r, timeoutIdx[..]) && Summary(r)
        {
          assert old(RowFor(r, timeoutIdx[..]) && Summary(r));
        }
        return -1;
      }
      loopId[fd] := LOOP;
      timeoutIdx[fd] := UNUSED;
      assert timeoutIdx[..] == old(timeoutIdx[..]);
      assert loopId[..] == old(loopId[..])[fd := LOOP];
      forall r: nat | r < SLOTS && !(draining && r == baseIdx)
        ensures RowFor(r, timeoutIdx[..]) && Summary(r)
      {
        assert old(RowFor(r, timeoutIdx[..]) && Summary(r));
      }
      if draining && secs > 0 { NeverCurrent(secs); }
      SetTimeout(fd, secs);
      r := 0;
    }

    /** picoev_add without a timeout on a descriptor that is registered already, as _resume_client calls it; with
        its asserts on the source aborts here.  The wheel still says what the map says exactly if no timeout was
        under way: else its bit stays behind, and a later run of the handler calls the new callback for it. */
    method AddAgain(fd: nat)
      requires Valid() && !draining && fd < maxFd && loopId[fd] == LOOP
      modifies loopId, timeoutIdx
      ensures loopId[..] == old(loopId[..]) && timeoutIdx[..] == old(timeoutIdx[..])[fd := UNUSED]
      ensures Valid() <==> old(timeoutIdx[fd]) == UNUSED
      ensures Shape() && (old(timeoutIdx[fd]) != UNUSED ==> Bit(vec[old(timeoutIdx[fd]), fd / 16], fd % 16))
    {
      hide Bit, SlotTime;
      var i := timeoutIdx[fd];
      if i != UNUSED {
        assert RowFor(i, timeoutIdx[..]);
        assert Bit(vec[i, fd / 16], fd % 16);
      }
      loopId[fd] := LOOP;
      timeoutIdx[fd] := UNUSED;
      assert timeoutIdx[..] == old(timeoutIdx[..])[fd := UNUSED];
      assert loopId[..] == old(loopId[..]);
      if i != UNUSED {
        assert !RowFor(i, timeoutIdx[..]);
      } else {
        assert timeoutIdx[..] == old(timeoutIdx[..]);
        forall r: nat | r < SLOTS ensures RowFor(r, timeoutIdx[..]) && Summary(r) {
          assert old(RowFor(r, timeoutIdx[..]) && Summary(r));
        }
      }
    }

    /** picoev_del. */
    method Del(fd: nat, ok: bool) returns (r: int)
      requires Valid() && fd < maxFd && loopId[fd] == LOOP
      requires draining ==> timeoutIdx[fd] != baseIdx
      modifies this`due, loopId, timeoutIdx, vec, vecOfVec
      ensures Valid() && due == old(due) && (r == 0 <==> ok)
      ensures r == 0 ==> loopId[..] == old(loopId[..])[fd := 0] && timeoutIdx[..] == old(timeoutIdx[..])[fd := UNUSED]
      ensures r != 0 ==> r == -1 && loopId[..] == old(loopId[..]) && timeoutIdx[..] == old(timeoutIdx[..])
      ensures draining ==> RowUntouched()
    {
      hide Bit, SlotTime, Distance;
      if !ok { return -1; }
      SetTimeout(fd, 0);
      label armed:
      loopId[fd] := 0;
      assert loopId[..] == old(loopId[..])[fd := 0];
      forall r: nat | r < SLOTS && !(draining && r == baseIdx)
        ensures RowFor(r, timeoutIdx[..]) && Summary(r)
      {
        assert old@armed(RowFor(r, timeoutIdx[..]) && Summary(r));
      }
      r := 0;
    }

    /** A callback: any finite number of calls on the loop, with seconds that are not negative, on its own
        descriptor k or on others that are not armed in the slot being taken apart.  The descriptors in alone
        are those which no callback but their own touches. */
    method Callback(k: nat, alone: set<nat>)
      requires Valid() && draining && k < maxFd && timeoutIdx[k] != baseIdx
      modifies this`due, this`called, loopId, timeoutIdx, vec, vecOfVec
      ensures Valid() && called == old(called) + [Firing(k, now)]
      ensures RowUntouched()
      ensures forall f :: 0 <= f < maxFd ==> (timeoutIdx[f] == baseIdx <==> old(timeoutIdx[f]) == baseIdx)
      ensures forall f :: 0 <= f < maxFd && f != k && f in alone ==>
        timeoutIdx[f] == old(timeoutIdx[f]) && due[f] == old(due[f])
      ensures Near() ==> Rearmed()
    {
      hide Bit, SlotTime, Distance, RowFor, Summary, Valid;
      called := called + [Firing(k, now)];
      ghost var log := called;
      var n: nat := *;
      ValidShape();
      while n > 0
        invariant Valid() && Shape() && called == log
        invariant RowUntouched()
        invariant timeoutIdx[k] != baseIdx
        invariant forall f :: 0 <= f < maxFd ==> (timeoutIdx[f] == baseIdx <==> old(timeoutIdx[f]) == baseIdx)
        invariant forall f :: 0 <= f < maxFd && f != k && f in alone ==>
          timeoutIdx[f] == old(timeoutIdx[f]) && due[f] == old(due[f])
        invariant Near() ==> Rearmed()
      {
        n := n - 1;
        var fd: nat, secs: nat, ok: bool, remove: bool := *, *, *, *;
        if fd == k || fd !in alone { Call(fd, secs, ok, remove); }
        ValidShape();
      }
    }

    /** One call a callback may make. */
    method Call(fd: nat, secs: nat, ok: bool, remove: bool)
      requires Valid() && draining
      modifies this`due, loopId, timeoutIdx, vec, vecOfVec
      ensures Valid()
      ensures RowUntouched()
      ensures forall f :: 0 <= f < maxFd ==> (timeoutIdx[f] == baseIdx <==> old(timeoutIdx[f]) == baseIdx)
      ensures forall f :: 0 <= f < maxFd && f != fd ==> timeoutIdx[f] == old(timeoutIdx[f]) && due[f] == old(due[f])
      ensures Near() ==> Rearmed()
    {
      hide Bit, SlotTime, Distance, RowFor, Summary;
      if fd < maxFd && timeoutIdx[fd] != baseIdx {
        if secs > 0 {
          NeverCurrent(secs);
          AgainInRun(now, secs, baseTime, resolution);
        }
        if loopId[fd] == 0 {
          var _ := Add(fd, secs, ok);
        } else if remove {
          var _ := Del(fd, ok);
        } else {
          SetTimeout(fd, secs);
        }
      }
    }

    /** A descriptor leaves the current slot just before its callback runs. */
    method TakeOut(k: nat)
      requires Valid() && draining && k < maxFd && timeoutIdx[k] == baseIdx
      modifies timeoutIdx
      ensures Valid() && timeoutIdx[..] == old(timeoutIdx[..])[k := UNUSED]
    {
      hide Bit, SlotTime;
      timeoutIdx[k] := UNUSED;
      assert timeoutIdx[..] == old(timeoutIdx[..])[k := UNUSED];
      forall r: nat | r < SLOTS && !(draining && r == baseIdx)
        ensures RowFor(r, timeoutIdx[..]) && Summary(r)
      {
        assert old(RowFor(r, timeoutIdx[..]) && Summary(r));
      }
    }

    /** The descriptors below lo have been called; the ones from lo on are armed here exactly as at the start. */
    ghost predicate Taken(idx0: seq<int>, lo: nat)
      requires Shape()
      reads this`baseIdx, this`due, timeoutIdx
    {
      && |idx0| == maxFd
      && (forall f :: 0 <= f < lo && f < maxFd ==> timeoutIdx[f] != baseIdx)
      && (forall f :: lo <= f < maxFd ==> (timeoutIdx[f] == baseIdx <==> idx0[f] == baseIdx))
    }

    /** Word j of the current slot holds the descriptors armed at the start. */
    ghost predicate WordFor(j: nat, idx0: seq<int>)
      requires Shape() && j < vecSize
      reads this`baseIdx, this`due, vec
    {
      WordIs(vec[baseIdx, j], j, idx0, baseIdx)
    }

    /** The clock is less than one round of the wheel ahead of the slot being taken apart. */
    predicate Near()
      reads this`baseTime, this`now
    {
      now < baseTime + SLOTS * resolution
    }

    /** Every timeout is as it was, or disarmed, or set to a slot that this run does not reach. */
    twostate predicate Rearmed()
      requires Shape() && old(Shape())
      reads this`baseIdx, this`now, this`due, timeoutIdx
    {
      forall f :: 0 <= f < maxFd ==>
        || (timeoutIdx[f] == old(timeoutIdx[f]) && due[f] == old(due[f]))
        || timeoutIdx[f] == UNUSED || due[f] + resolution > now
    }

    /** No stretch of the drain changes what is left alone in other slots, nor, within a round of the wheel, sets
        a timeout that this run would reach. */
    twostate predicate OthersKept(alone: set<nat>)
      requires Shape() && old(Shape())
      reads this`baseIdx, this`baseTime, this`now, this`due, timeoutIdx
    {
      && (forall f :: 0 <= f < maxFd && f in alone && old(timeoutIdx[f]) != baseIdx ==>
            timeoutIdx[f] == old(timeoutIdx[f]) && due[f] == old(due[f]))
      && (Near() ==> Rearmed())
    }

    /** After the callbacks c those of the descriptors fs have run. */
    ghost predicate Logged(c: seq<Firing>, fs: seq<nat>)
      reads this`called, this`now
    {
      called == c + At(fs, now)
    }

    /** One armed descriptor. */
    method Visit(k: nat, alone: set<nat>, ghost c: seq<Firing>, ghost idx0: seq<int>)
      requires Valid() && draining && k < maxFd && Taken(idx0, k) && idx0[k] == baseIdx
      requires Logged(c, ArmedTo(idx0, baseIdx, k))
      modifies this`due, this`called, loopId, timeoutIdx, vec, vecOfVec
      ensures Valid() && Taken(idx0, k + 1) && Logged(c, ArmedTo(idx0, baseIdx, k + 1))
      ensures OthersKept(alone) && RowUntouched()
    {
      hide Bit, SlotTime, Distance, RowFor, Summary, ArmedTo, Valid, At;
      ValidShape();
      ArmedHere(k);
      ArmedStep(idx0, baseIdx, k);
      AtNext(c, ArmedTo(idx0, baseIdx, k), k, now);
      TakeOut(k);
      Callback(k, alone);
      ValidShape();
    }

    /** The loop over the bits of one word: each armed descriptor is taken out and called once, in order. */
    method DrainWord(j: nat, alone: set<nat>, ghost c: seq<Firing>, ghost idx0: seq<int>)
      requires Valid() && draining && j < vecSize && Taken(idx0, 16 * j) && WordFor(j, idx0)
      requires vec[baseIdx, j] != 0
      requires Logged(c, ArmedTo(idx0, baseIdx, 16 * j))
      modifies this`due, this`called, loopId, timeoutIdx, vec, vecOfVec
      ensures Valid() && Taken(idx0, 16 * j + 16)
      ensures Logged(c, ArmedTo(idx0, baseIdx, 16 * j + 16)) && OthersKept(alone)
      ensures vec[baseIdx, j] == 0
      ensures forall k: nat {:trigger vec[baseIdx, k]} :: k < vecSize && k != j ==>
        vec[baseIdx, k] == old(vec[baseIdx, k])
      ensures forall k: nat {:trigger vecOfVec[baseIdx, k]} :: k < vovSize ==>
        vecOfVec[baseIdx, k] == old(vecOfVec[baseIdx, k])
    {
      hide Bit, Rest, Shifted, SlotTime, Distance, RowFor, Summary, ArmedTo, Valid, Logged;
      ValidShape();
      var v := vec[baseIdx, j];
      ghost var w := v;
      RestAll(w);
      var k := 16 * j;
      while v != 0
        invariant Valid() && Shape() && 16 * j <= k <= 16 * j + 16
        invariant Rest(v, w, k - 16 * j)
        invariant Taken(idx0, k) && Logged(c, ArmedTo(idx0, baseIdx, k)) && OthersKept(alone)
        invariant RowUntouched()
        decreases 16 * j + 16 - k
      {
        RestStep(v, w, k - 16 * j);
        assert Bit(w, k - 16 * j) <==> k < maxFd && idx0[k] == baseIdx;
        if v >= 0x8000 {
          Visit(k, alone, c, idx0);
          ValidShape();
        } else {
          ArmedStep(idx0, baseIdx, k);
        }
        v := Shifted(v);
        k := k + 1;
      }
      RestEmpty(w, k - 16 * j);
      forall f | k <= f < 16 * j + 16 && f < maxFd ensures idx0[f] != baseIdx {
        assert !Bit(w, f - 16 * j);
      }
      ArmedGap(idx0, baseIdx, k, 16 * j + 16);
      ClearWord(j);
    }

    method ClearWord(j: nat)
      requires Valid() && draining && j < vecSize
      modifies vec
      ensures Valid() && vec[baseIdx, j] == 0 && OnlyWord(baseIdx, j)
    {
      hide Bit, SlotTime;
      vec[baseIdx, j] := 0;
      forall r: nat | r < SLOTS && !(draining && r == baseIdx)
        ensures RowFor(r, timeoutIdx[..]) && Summary(r)
      {
        assert old(RowFor(r, timeoutIdx[..]) && Summary(r));
      }
    }

    ghost predicate WordsFrom(j: nat, idx0: seq<int>)
      requires Shape()
      reads this`baseIdx, this`due, vec
    {
      forall k: nat {:trigger WordFor(k, idx0)} :: j <= k < vecSize ==> WordFor(k, idx0)
    }

    ghost predicate WordsZero(j: nat)
      requires Shape()
      reads this`baseIdx, this`due, vec
    {
      forall k: nat {:trigger vec[baseIdx, k]} :: k < j && k < vecSize ==> vec[baseIdx, k] == 0
    }

    /** Summary word m of the current slot. */
    ghost predicate SummaryWord(m: nat)
      requires Shape() && m < vovSize
      reads this`baseIdx, this`due, vec, vecOfVec
    {
      forall c: nat {:trigger Bit(vecOfVec[baseIdx, m], c)} :: c < 16 ==>
        (Bit(vecOfVec[baseIdx, m], c) <==> 16 * m + c < vecSize && vec[baseIdx, 16 * m + c] != 0)
    }

    /** The loop over the bits of one summary word. */
    method DrainSummary(m: nat, alone: set<nat>, ghost c: seq<Firing>, ghost idx0: seq<int>)
      requires Valid() && draining && m < vovSize && Taken(idx0, 256 * m)
      requires WordsFrom(16 * m, idx0) && WordsZero(16 * m) && SummaryWord(m)
      requires Logged(c, ArmedTo(idx0, baseIdx, 256 * m))
      modifies this`due, this`called, loopId, timeoutIdx, vec, vecOfVec
      ensures Valid() && Taken(idx0, 256 * m + 256)
      ensures WordsZero(16 * m + 16) && vecOfVec[baseIdx, m] == 0
      ensures Logged(c, ArmedTo(idx0, baseIdx, 256 * m + 256)) && OthersKept(alone)
      ensures forall k: nat {:trigger vec[baseIdx, k]} :: 16 * m + 16 <= k < vecSize ==>
        vec[baseIdx, k] == old(vec[baseIdx, k])
      ensures forall k: nat {:trigger vecOfVec[baseIdx, k]} :: k < vovSize && k != m ==>
        vecOfVec[baseIdx, k] == old(vecOfVec[baseIdx, k])
    {
      hide Bit, Rest, Shifted, SlotTime, Distance, RowFor, Summary, ArmedTo, Valid, WordIs, Logged;
      ValidShape();
      var vv := vecOfVec[baseIdx, m];
      ghost var u := vv;
      RestAll(u);
      var j := 16 * m;
      while vv != 0
        invariant Valid() && Shape() && 16 * m <= j <= 16 * m + 16
        invariant Rest(vv, u, j - 16 * m)
        invariant Taken(idx0, 16 * j) && Logged(c, ArmedTo(idx0, baseIdx, 16 * j)) && OthersKept(alone)
        invariant WordsZero(j)
        invariant forall k: nat {:trigger vec[baseIdx, k]} :: j <= k < vecSize ==>
          vec[baseIdx, k] == old(vec[baseIdx, k])
        invariant forall k: nat {:trigger vecOfVec[baseIdx, k]} :: k < vovSize ==>
          vecOfVec[baseIdx, k] == old(vecOfVec[baseIdx, k])
        decreases 16 * m + 16 - j
      {
        RestStep(vv, u, j - 16 * m);
        assert Bit(u, j - 16 * m) <==> j < vecSize && vec[baseIdx, j] != 0;
        assert j < vecSize ==> old(WordFor(j, idx0));
        if vv >= 0x8000 {
          DrainWord(j, alone, c, idx0);
          ValidShape();
        } else {
          if j < vecSize { EmptyWord(j, idx0, baseIdx); }
          ArmedGap(idx0, baseIdx, 16 * j, 16 * j + 16);
        }
        vv := Shifted(vv);
        j := j + 1;
      }
      RestEmpty(u, j - 16 * m);
      forall k: nat | j <= k < 16 * m + 16 && k < vecSize
        ensures vec[baseIdx, k] == 0 && WordIs(0, k, idx0, baseIdx)
      {
        assert !Bit(u, k - 16 * m);
        assert old(WordFor(k, idx0));
      }
      forall f | 16 * j <= f < 256 * m + 256 && f < maxFd ensures idx0[f] != baseIdx {
        EmptyWord(f / 16, idx0, baseIdx);
      }
      ArmedGap(idx0, baseIdx, 16 * j, 256 * m + 256);
      if vecOfVec[baseIdx, m] != 0 { ClearSummaryWord(m); }
    }

    method ClearSummaryWord(m: nat)
      requires Valid() && draining && m < vovSize
      modifies vecOfVec
      ensures Valid() && vecOfVec[baseIdx, m] == 0 && OnlySummary(baseIdx, m)
    {
      hide Bit, SlotTime;
      vecOfVec[baseIdx, m] := 0;
      forall r: nat | r < SLOTS && !(draining && r == baseIdx)
        ensures RowFor(r, timeoutIdx[..]) && Summary(r)
      {
        assert old(RowFor(r, timeoutIdx[..]) && Summary(r));
      }
    }

    /** Taking the current slot apart: every descriptor armed in it is called exactly once, in ascending order,
        whatever the callbacks do to other slots; the slot is empty and the wheel exact again afterwards. */
    method DrainSlot(alone: set<nat>)
      requires Valid() && !draining && baseTime <= now - resolution
      modifies this`due, this`called, this`draining, loopId, timeoutIdx, vec, vecOfVec
      ensures Valid() && !draining
      ensures called == old(called) + At(Armed(old(timeoutIdx[..]), baseIdx, maxFd), now) && OthersKept(alone)
      ensures forall f :: 0 <= f < maxFd ==> timeoutIdx[f] != baseIdx
    {
      hide Bit, SlotTime, Distance, At;
      ghost var idx0 := timeoutIdx[..];
      assert RowFor(baseIdx, idx0) && Summary(baseIdx);
      assert forall k: nat {:trigger WordFor(k, idx0)} :: k < vecSize ==> WordFor(k, idx0);
      assert forall k: nat {:trigger SummaryWord(k)} :: k < vovSize ==> SummaryWord(k);
      draining := true;
      forall r: nat | r < SLOTS && !(draining && r == baseIdx)
        ensures RowFor(r, timeoutIdx[..]) && Summary(r)
      {
        assert old(RowFor(r, timeoutIdx[..]) && Summary(r));
      }
      assert Valid();
      DrainRow(alone, idx0);
      RowEmpty();
      forall r: nat | r < SLOTS ensures RowFor(r, timeoutIdx[..]) && Summary(r) {}
      draining := false;
      forall r: nat | r < SLOTS ensures RowFor(r, timeoutIdx[..]) && Summary(r) {}
      assert Valid();
    }

    method DrainRow(alone: set<nat>, ghost idx0: seq<int>)
      requires Valid() && draining && idx0 == timeoutIdx[..]
      requires forall k: nat {:trigger WordFor(k, idx0)} :: k < vecSize ==> WordFor(k, idx0)
      requires forall k: nat {:trigger SummaryWord(k)} :: k < vovSize ==> SummaryWord(k)
      modifies this`due, this`called, loopId, timeoutIdx, vec, vecOfVec
      ensures Valid() && WordsZero(vecSize)
      ensures forall k: nat {:trigger vecOfVec[baseIdx, k]} :: k < vovSize ==> vecOfVec[baseIdx, k] == 0
      ensures called == old(called) + At(Armed(idx0, baseIdx, maxFd), now) && OthersKept(alone)
      ensures forall f :: 0 <= f < maxFd ==> timeoutIdx[f] != baseIdx
    {
      hide Bit, SlotTime, Distance, Valid, RowFor, Summary, WordIs;
      ValidShape();
      ghost var c := called;
      assert Logged(c, []);
      var m := 0;
      while m < vovSize
        invariant m <= vovSize && Valid() && Shape()
        invariant Taken(idx0, 256 * m) && Logged(c, ArmedTo(idx0, baseIdx, 256 * m)) && OthersKept(alone)
        invariant WordsZero(16 * m)
        invariant forall k: nat {:trigger vecOfVec[baseIdx, k]} :: k < m ==> vecOfVec[baseIdx, k] == 0
        invariant forall k: nat {:trigger vec[baseIdx, k]} :: 16 * m <= k < vecSize ==>
          vec[baseIdx, k] == old(vec[baseIdx, k])
        invariant forall k: nat {:trigger vecOfVec[baseIdx, k]} :: m <= k < vovSize ==>
          vecOfVec[baseIdx, k] == old(vecOfVec[baseIdx, k])
      {
        hide ArmedTo, Armed, Logged;
        forall k: nat | 16 * m <= k < vecSize ensures WordFor(k, idx0) {
          assert old(WordFor(k, idx0));
        }
        assert SummaryWord(m) by { assert old(SummaryWord(m)); }
        DrainSummary(m, alone, c, idx0);
        ValidShape();
        m := m + 1;
      }
    }

    lemma RowEmpty()
      requires Shape() && WordsZero(vecSize)
      requires forall k: nat {:trigger vecOfVec[baseIdx, k]} :: k < vovSize ==> vecOfVec[baseIdx, k] == 0
      requires forall f :: 0 <= f < maxFd ==> timeoutIdx[f] != baseIdx
      ensures RowFor(baseIdx, timeoutIdx[..]) && Summary(baseIdx)
    {
      hide Bit;
      forall b: nat | b < 16 ensures !Bit(0, b) { NoBit(b); }
    }

    /** The step of the handler's for statement: the due times of what is still armed do not move. */
    method AdvanceBase()
      requires Valid() && !draining && baseTime <= now - resolution
      requires forall f :: 0 <= f < maxFd ==> timeoutIdx[f] != baseIdx
      modifies this`baseIdx, this`baseTime
      ensures Valid() && baseTime == old(baseTime) + resolution && baseIdx == (old(baseIdx) + 1) % SLOTS
    {
      hide Bit;
      baseIdx := (baseIdx + 1) % SLOTS;
      baseTime := baseTime + resolution;
      forall f | 0 <= f < maxFd && timeoutIdx[f] != UNUSED ensures due[f] == SlotTime(timeoutIdx[f]) {
        OneStepOn(old(baseIdx), timeoutIdx[f], old(baseTime), resolution);
        assert old(due[f] == SlotTime(timeoutIdx[f]));
      }
      forall r: nat | r < SLOTS ensures RowFor(r, timeoutIdx[..]) && Summary(r) {
        assert old(RowFor(r, timeoutIdx[..]) && Summary(r));
      }
    }

    /** Of the descriptors left alone those have been called that were armed and whose time had come; the
        others are as they were. */
    ghost predicate Served(idx: seq<int>, times: seq<int>, alone: set<nat>, news: seq<Firing>)
      reads this`now, this`due, timeoutIdx
    {
      && |idx| == |times| == |due| == timeoutIdx.Length == maxFd
      && forall f: nat {:trigger Fired(news, f)} :: f < maxFd && f in alone ==>
           if Fired(news, f) then idx[f] != UNUSED && times[f] + resolution <= now
           else timeoutIdx[f] == idx[f] && due[f] == times[f]
    }

    /** picoev_handle_timeout_internal.  A descriptor that the callbacks of others leave alone is called in this
        run exactly when it was armed and its slot has ended by the clock; otherwise it stays as it was.  No
        descriptor at all is called twice in a run that begins within one round of the wheel. */
    method HandleTimeout(alone: set<nat>)
      requires Valid() && !draining
      modifies this`baseIdx, this`baseTime, this`due, this`called, this`draining, loopId, timeoutIdx, vec, vecOfVec
      ensures Valid() && !draining && Settled() && CalledNow(old(called))
      ensures forall f: nat {:trigger Fired(called[|old(called)|..], f)} :: f < maxFd && f in alone ==>
        (Fired(called[|old(called)|..], f) <==> old(timeoutIdx[f]) != UNUSED && old(due[f]) + resolution <= now)
      ensures forall f: nat {:trigger Fired(called[|old(called)|..], f)} ::
        f < maxFd && f in alone && !Fired(called[|old(called)|..], f) ==>
        timeoutIdx[f] == old(timeoutIdx[f]) && due[f] == old(due[f])
      ensures old(Near()) ==> Once(called[|old(called)|..])
    {
      hide Bit, SlotTime, Distance, RowFor, Summary, Armed, At, Fired, Once;
      ghost var idx, times, c, near := timeoutIdx[..], due, called, Near();
      NoneFired(called);
      NoneTwice(called);
      while baseTime <= now - resolution
        invariant Valid() && !draining && CalledNow(c) && Served(idx, times, alone, called[|c|..])
        invariant near ==> Near() && Once(called[|c|..]) && NoneAgain(called[|c|..])
        decreases now - baseTime
      {
        ghost var idx1, c1 := timeoutIdx[..], called;
        ArmedIs(idx1, baseIdx, maxFd);
        forall f: nat | f < maxFd && timeoutIdx[f] == baseIdx ensures due[f] == baseTime { ArmedHere(f); }
        assert near ==> forall f :: f in Armed(idx1, baseIdx, maxFd) ==> !Fired(c1[|c|..], f);
        DrainSlot(alone);
        FiredMore(c, c1, Armed(idx1, baseIdx, maxFd), now);
        forall f: nat | f < maxFd && f in alone
          ensures if Fired(called[|c|..], f) then idx[f] != UNUSED && times[f] + resolution <= now
                  else timeoutIdx[f] == idx[f] && due[f] == times[f]
        {
          assert Fired(called[|c|..], f) <==> Fired(c1[|c|..], f) || idx1[f] == baseIdx;
        }
        if near { OnceMore(c, c1, Armed(idx1, baseIdx, maxFd), now); }
        AdvanceBase();
      }
      forall f: nat | f < maxFd && timeoutIdx[f] != UNUSED ensures due[f] + resolution > now {
        NotBefore(f);
      }
    }

    /** Whoever has been called is disarmed, or armed for a later run. */
    ghost predicate NoneAgain(news: seq<Firing>)
      reads this`now, this`due, timeoutIdx
    {
      && |due| == timeoutIdx.Length == maxFd
      && forall f: nat {:trigger Fired(news, f)} :: f < maxFd && Fired(news, f) ==>
           timeoutIdx[f] == UNUSED || due[f] + resolution > now
    }

    /** Since the callbacks c others have run, all of them at this time of the clock. */
    ghost predicate CalledNow(c: seq<Firing>)
      reads this`called, this`now
    {
      c <= called && forall i :: |c| <= i < |called| ==> called[i].at == now
    }

    lemma NotBefore(f: nat)
      requires Valid() && f < maxFd && timeoutIdx[f] != UNUSED
      ensures baseTime <= due[f]
    {
      assert 0 <= (timeoutIdx[f] - baseIdx) % SLOTS * resolution;
    }

    /** picoev_loop_once after the poll: the clock is read, then the handler runs. */
    method LoopOnce(current: int, alone: set<nat>)
      requires Valid() && !draining && now <= current
      modifies this`now, this`baseIdx, this`baseTime, this`due, this`called, this`draining, loopId, timeoutIdx, vec,
               vecOfVec
      ensures Valid() && !draining && Settled() && now == current && CalledNow(old(called))
      ensures forall f: nat {:trigger Fired(called[|old(called)|..], f)} :: f < maxFd && f in alone ==>
        (Fired(called[|old(called)|..], f) <==> old(timeoutIdx[f]) != UNUSED && old(due[f]) + resolution <= current)
      ensures current < old(baseTime) + SLOTS * resolution ==> Once(called[|old(called)|..])
      ensures forall f: nat {:trigger Fired(called[|old(called)|..], f)} ::
        f < maxFd && f in alone && !Fired(called[|old(called)|..], f) ==>
        timeoutIdx[f] == old(timeoutIdx[f]) && due[f] == old(due[f])
    {
      hide Bit, SlotTime, Distance, Fired;
      now := current;
      assert Valid() by {
        forall r: nat | r < SLOTS ensures RowFor(r, timeoutIdx[..]) && Summary(r) {
          assert old(RowFor(r, timeoutIdx[..]) && Summary(r));
        }
      }
      HandleTimeout(alone);
    }

    /** A timeout of secs seconds on a descriptor left alone, followed through runs of the loop at the times of
        clocks: k is the run that calls it, or their number.  Its callback runs in no run while the clock is at most
        now0 + secs, and no run at now0 + secs + resolution or later goes by without it; beyond the reach of
        the wheel it still waits for more than 127 resolutions. */
    method ArmAndWait(fd: nat, secs: int, clocks: seq<int>, alone: set<nat>) returns (k: nat)
      requires Valid() && !draining && Settled() && fd < maxFd && loopId[fd] == LOOP && secs > 0 && fd in alone
      requires forall i, j :: 0 <= i <= j < |clocks| ==> now <= clocks[i] <= clocks[j]
      modifies this`now, this`baseIdx, this`baseTime, this`due, this`called, this`draining, loopId, timeoutIdx, vec,
               vecOfVec
      ensures Valid() && !draining && Settled() && k <= |clocks| && old(called) <= called
      ensures Fired(called[|old(called)|..], fd) <==> k < |clocks|
      ensures forall i :: |old(called)| <= i < |called| && called[i].fd == fd ==>
        k < |clocks| && called[i].at == clocks[k]
      ensures now == if |clocks| == 0 then old(now) else if k < |clocks| then clocks[k] else clocks[k - 1]
      ensures (old(now) + secs - old(baseTime)) / resolution < SLOTS ==>
        && (forall i :: 0 <= i < k ==> clocks[i] < old(now) + secs + resolution)
        && (k < |clocks| ==> old(now) + secs < clocks[k])
      ensures (old(now) + secs - old(baseTime)) / resolution >= SLOTS - 1 ==>
        (k < |clocks| ==> old(now) + (SLOTS - 1) * resolution < clocks[k])
    {
      hide Bit, SlotTime, Distance, RowFor, Summary, Valid, Fired;
      ValidShape();
      TimingBounds(now, secs, baseTime, resolution);
      ghost var c := called;
      SetTimeout(fd, secs);
      ValidShape();
      ghost var end := due[fd] + resolution;
      k := 0;
      ArmedNow(secs);
      NoneFired(called);
      while k < |clocks|
        invariant k <= |clocks| && Valid() && Shape() && !draining && Settled()
        invariant now == if k == 0 then old(now) else clocks[k - 1]
        invariant timeoutIdx[fd] != UNUSED && due[fd] + resolution == end
        invariant forall i :: 0 <= i < k ==> clocks[i] < end
        invariant c <= called && !Fired(called[|c|..], fd)
      {
        var from := |called|;
        ghost var c1 := called;
        LoopOnce(clocks[k], alone);
        ValidShape();
        assert called[|c|..from] == c1[|c|..];
        FiredSince(called, |c|, from, fd);
        OnlyNow(called, |c|, from, fd, now);
        if Fired(called[from..], fd) { return; }
        k := k + 1;
      }
      NotFired(called, |c|, fd);
    }

    lemma ArmedNow(secs: int)
      requires resolution > 0 && baseIdx < SLOTS && secs != 0
      ensures SlotFor(secs) != UNUSED
    {
    }

    /** picoev_init and picoev_init_loop_internal.  A slot is as many seconds long as 128 of them need to reach the
        maximal timeout, and no longer: one second up to 128 seconds.  Each level of the bitmap has a bit for
        everything below it and less than 128 bits to spare. */
    constructor (maxFd: nat, maxTimeout: nat, current: int)
      requires maxFd > 0 && maxTimeout > 0
      ensures Valid() && !draining && Settled() && called == []
      ensures this.maxFd == maxFd && now == baseTime == current
      ensures 128 * (resolution - 1) < maxTimeout <= 128 * resolution
      ensures maxFd <= 16 * vecSize < maxFd + 128 && vecSize % 8 == 0
      ensures vecSize <= 16 * vovSize < vecSize + 128 && vovSize % 8 == 0
      ensures vec.Length0 == vecOfVec.Length0 == 128
      ensures forall f :: 0 <= f < maxFd ==> loopId[f] == 0 && timeoutIdx[f] == UNUSED
      ensures fresh(loopId) && fresh(timeoutIdx) && fresh(vec) && fresh(vecOfVec)
    {
      this.maxFd := maxFd;
      var words := RoundUp(maxFd, 128) / 16;
      var summaries := RoundUp(words, 128) / 16;
      vecSize, vovSize := words, summaries;
      resolution := RoundUp(maxTimeout, SLOTS) / SLOTS;
      loopId := new nat[maxFd](_ => 0);
      timeoutIdx := new int[maxFd](_ => UNUSED);
      vec := new bv16[SLOTS, words]((i, j) => 0);
      vecOfVec := new bv16[SLOTS, summaries]((i, j) => 0);
      baseIdx, baseTime, now := 0, current, current;
      draining, due, called := false, seq(maxFd, _ => 0), [];
      new;
      Rounded(maxFd);
      Rounded(words);
      RoundedSlots(maxTimeout);
      hide Bit;
      forall b: nat | b < 16 ensures !Bit(0, b) { NoBit(b); }
      forall r: nat | r < SLOTS ensures RowFor(r, timeoutIdx[..]) && Summary(r) {
        assert forall j: nat {:trigger vec[r, j]} :: j < vecSize ==> vec[r, j] == 0;
        assert forall m: nat {:trigger vecOfVec[r, m]} :: m < vovSize ==> vecOfVec[r, m] == 0;
      }
    }

    /** The assert of the handler. */
    lemma ArmedHere(k: nat)
      requires Valid() && k < maxFd && timeoutIdx[k] == baseIdx
      ensures loopId[k] == LOOP && due[k] == baseTime
    {
    }
  }

  lemma ArmedStep(idx: seq<int>, s: int, k: nat)
    ensures ArmedTo(idx, s, k + 1) == if k < |idx| && idx[k] == s then ArmedTo(idx, s, k) + [k] else ArmedTo(idx, s, k)
  {
  }

  lemma DivAtLeast(x: int, d: int)
    requires d > 0 && x >= d
    ensures x / d >= 1
  {
  }

  lemma OneStepOn(base: nat, i: int, time: int, resolution: int)
    requires base < SLOTS && 0 <= i < SLOTS && i != base
    ensures time + (i - base) % SLOTS * resolution
         == time + resolution + (i - (base + 1) % SLOTS) % SLOTS * resolution
  {
    SlotBehind(base, i);
    OneLess((i - base) % SLOTS, resolution);
  }

  lemma SlotBehind(base: nat, i: int)
    requires base < SLOTS && 0 <= i < SLOTS && i != base
    ensures (i - (base + 1) % SLOTS) % SLOTS == (i - base) % SLOTS - 1
  {}

  lemma OneLess(k: int, x: int)
    ensures k * x == x + (k - 1) * x
  {}

  lemma Rounded(v: nat)
    ensures v <= 16 * (RoundUp(v, 128) / 16) < v + 128 && RoundUp(v, 128) / 16 % 8 == 0
  {
    var k := (v + 128 - 1) / 128;
    assert k * 128 / 16 == k * 8;
  }

  lemma RoundedSlots(v: nat)
    requires v > 0
    ensures RoundUp(v, SLOTS) / SLOTS > 0
    ensures SLOTS * (RoundUp(v, SLOTS) / SLOTS - 1) < v <= SLOTS * (RoundUp(v, SLOTS) / SLOTS)
  {
    var k := (v + SLOTS - 1) / SLOTS;
    assert k * SLOTS / SLOTS == k;
  }

  /** One timeout from a new loop on.  Below the maximal timeout its callback runs in no run of the loop while the
      clock is at most current + secs, and in the first one that is late enough, which is never a 128th of the maximal
      timeout late; where that is at most 128 seconds it runs in the very first run past current + secs. */
  method FirstTimeout(maxFd: nat, maxTimeout: nat, current: int, fd: nat, secs: int, clocks: seq<int>)
    returns (loop: Loop, k: nat)
    requires fd < maxFd && 0 < secs < maxTimeout
    requires forall i, j :: 0 <= i <= j < |clocks| ==> current <= clocks[i] <= clocks[j]
    ensures k <= |clocks| && (Fired(loop.called, fd) <==> k < |clocks|)
    ensures forall i :: 0 <= i < |loop.called| && loop.called[i].fd == fd ==>
      k < |clocks| && loop.called[i].at == clocks[k]
    ensures k < |clocks| ==> current + secs < clocks[k]
    ensures forall i :: 0 <= i < k ==> 128 * (clocks[i] - current - secs) < maxTimeout
    ensures maxTimeout <= 128 ==> forall i :: 0 <= i < k ==> clocks[i] <= current + secs
  {
    loop := new Loop(maxFd, maxTimeout, current);
    var r := loop.Add(fd, 0, true);
    assert loop.called[0..] == loop.called;
    InReach(secs, loop.resolution);
    k := loop.ArmAndWait(fd, secs, clocks, {fd});
    assert loop.called[0..] == loop.called;
    forall i | 0 <= i < k ensures 128 * (clocks[i] - current - secs) < maxTimeout {}
  }

  lemma InReach(x: int, d: int)
    requires x >= 0 && d > 0 && x < SLOTS * d
    ensures x / d < SLOTS
  {
    DivBounds(x, d);
    if x / d >= SLOTS { Scaled(SLOTS, x / d, d); }
  }

  // ---------- how early, how late ----------

  /** A timeout of secs seconds armed while the wheel is settled, and left alone, is called by exactly the handler
      runs whose clock has reached its slot's end; that end lies after now0 + secs and at most one resolution later.
      A distance clamped to 127 slots still gives more than 127 resolutions. */
  lemma TimingBounds(now0: int, secs: int, baseTime: int, resolution: int)
    requires resolution > 0 && secs > 0 && baseTime <= now0 < baseTime + resolution
    ensures var end := baseTime + Distance(now0, secs, baseTime, resolution) * resolution + resolution;
      && ((now0 + secs - baseTime) / resolution < SLOTS ==> now0 + secs < end <= now0 + secs + resolution)
      && ((now0 + secs - baseTime) / resolution >= SLOTS - 1 ==> end > now0 + (SLOTS - 1) * resolution)
      && end > now0
  {
    var x := now0 + secs - baseTime;
    var q := x / resolution;
    DivBounds(x, resolution);
    if q >= SLOTS - 1 {
      assert baseTime + (SLOTS - 1) * resolution + resolution > now0 + (SLOTS - 1) * resolution;
    }
  }

  /** A timeout set while the wheel lags behind the clock, in a run of the handler, is reached by that same run,
      and thus before its time, exactly when the lag is a whole round of the wheel, whatever its seconds. */
  lemma AgainInRun(now: int, secs: int, baseTime: int, resolution: int)
    requires resolution > 0 && secs > 0 && baseTime <= now
    ensures baseTime + Distance(now, secs, baseTime, resolution) * resolution + resolution <= now
      <==> baseTime + SLOTS * resolution <= now
  {
    var x := now + secs - baseTime;
    DivBounds(x, resolution);
    if x / resolution >= SLOTS {
      assert Distance(now, secs, baseTime, resolution) == SLOTS - 1;
    } else {
      assert baseTime + x / resolution * resolution + resolution > baseTime + x;
      assert x < SLOTS * resolution by { LessThan(x, resolution, SLOTS); }
    }
  }

  lemma LessThan(x: int, d: int, k: nat)
    requires x >= 0 && d > 0 && x / d < k
    ensures x < k * d
  {
    DivBounds(x, d);
    Scaled(x / d + 1, k, d);
  }

  lemma Scaled(a: int, b: int, d: int)
    requires a <= b && d > 0
    ensures a * d <= b * d
  {}

  lemma DivBounds(x: int, d: int)
    requires x >= 0 && d > 0
    ensures x / d >= 0 && x / d * d <= x < x / d * d + d
  {
  }
}
