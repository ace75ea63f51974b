/** The timer heap: a binary min-heap of timer objects on their deadline. */
module TimerHeap {

  /** A timer object.  runs counts how often its action has been run, cancelled records a cancel. */
  class Timer {
    const seconds: int
    var called: bool
    ghost var runs: nat
    ghost var cancelled: bool

    /** TimerObject_new: a positive delay counts from the cached clock, anything else is due at once. */
    constructor (delay: int, clock: int)
      ensures seconds == (if delay > 0 then clock + delay else 0) && !called && runs == 0 && !cancelled
    {
      seconds := if delay > 0 then clock + delay else 0;
      called, runs, cancelled := false, 0, false;
    }

    /** The action runs at most once, and a used timer has run or was cancelled. */
    ghost predicate Valid()
      reads this
    {
      && (runs == 0 || runs == 1)
      && (runs == 1 ==> called)
      && (called ==> runs == 1 || cancelled)
    }

    /** fire_timer: ran tells the caller to run the action. */
    method Fire() returns (ran: bool)
      requires Valid()
      modifies this
      ensures Valid() && called && ran == !old(called)
      ensures runs == old(runs) + (if ran then 1 else 0) && cancelled == old(cancelled)
    {
      ran := false;
      if !called {
        called := true;
        runs := runs + 1;
        ran := true;
      }
    }

    /** TimerObject_cancel. */
    method Cancel()
      requires Valid()
      modifies this
      ensures Valid() && called && cancelled && runs == old(runs)
    {
      called, cancelled := true, true;
    }
  }

  function Parent(i: nat): nat
    requires i > 0
  {
    (i - 1) / 2
  }

  /** Heap order, the edge above position but left out. */
  predicate OrderedBut(s: seq<Timer>, but: int) {
    forall i: nat {:trigger s[i]} :: 0 < i < |s| && i != but ==> s[Parent(i)].seconds <= s[i].seconds
  }

  predicate Ordered(s: seq<Timer>) {
    OrderedBut(s, 0)
  }

  /** The children of pos are no earlier than its parent. */
  predicate Spans(s: seq<Timer>, pos: nat) {
    forall i: nat {:trigger s[i]} :: 0 < i < |s| && Parent(i) == pos && 0 < pos ==>
      s[Parent(pos)].seconds <= s[i].seconds
  }

  /** Heap order except at the edges that touch pos, across which the order still holds. */
  predicate HoleAt(s: seq<Timer>, pos: nat) {
    && (forall i: nat {:trigger s[i]} :: 0 < i < |s| && i != pos && Parent(i) != pos ==>
      s[Parent(i)].seconds <= s[i].seconds)
    && Spans(s, pos)
  }

  lemma {:induction false} RootIsLeast(s: seq<Timer>, i: nat)
    requires Ordered(s) && i < |s|
    ensures s[0].seconds <= s[i].seconds
    decreases i
  {
    if i > 0 { RootIsLeast(s, Parent(i)); }
  }

  /** s with the items at p and q exchanged. */
  function Swapped(s: seq<Timer>, p: nat, q: nat): (r: seq<Timer>)
    requires p < |s| && q < |s|
    ensures |r| == |s|
  {
    s[p := s[q]][q := s[p]]
  }

  lemma SwapKeeps(s: seq<Timer>, p: nat, q: nat)
    requires p < |s| && q < |s|
    ensures multiset(Swapped(s, p, q)) == multiset(s)
  {
    assert multiset(s[p := s[q]]) == multiset(s) - multiset{s[p]} + multiset{s[q]};
  }

  /** An item earlier than its parent trades places with it. */
  lemma Rise(s: seq<Timer>, pos: nat)
    requires 0 < pos < |s| && OrderedBut(s, pos) && Spans(s, pos)
    requires s[pos].seconds < s[Parent(pos)].seconds
    ensures OrderedBut(Swapped(s, pos, Parent(pos)), Parent(pos)) && Spans(Swapped(s, pos, Parent(pos)), Parent(pos))
  {
    var p, t := Parent(pos), Swapped(s, pos, Parent(pos));
    forall i: nat {:trigger t[i]} | 0 < i < |t| && i != p
      ensures t[Parent(i)].seconds <= t[i].seconds
    {
      if i == pos { assert t[p] == s[pos] && t[pos] == s[p]; }
      else if Parent(i) == pos { assert t[pos] == s[p] && t[i] == s[i]; }
      else if Parent(i) == p { assert t[p] == s[pos] && t[i] == s[i] && s[p].seconds <= s[i].seconds; }
      else { assert t[i] == s[i] && t[Parent(i)] == s[Parent(i)]; }
    }
    forall i: nat {:trigger t[i]} | 0 < i < |t| && Parent(i) == p && 0 < p
      ensures t[Parent(p)].seconds <= t[i].seconds
    {
      assert t[Parent(p)] == s[Parent(p)] && s[Parent(p)].seconds <= s[p].seconds;
      if i != pos { assert t[i] == s[i] && s[p].seconds <= s[i].seconds; }
    }
  }

  /** child is a child of pos and no later than the other one. */
  predicate Lesser(s: seq<Timer>, pos: nat, child: nat) {
    && pos < child < |s| && (child == 2 * pos + 1 || child == 2 * pos + 2)
    && (forall i: nat {:trigger s[i]} :: 0 < i < |s| && Parent(i) == pos ==> s[child].seconds <= s[i].seconds)
  }

  /** The hole takes the place of its least child. */
  lemma Sink(s: seq<Timer>, pos: nat, child: nat)
    requires HoleAt(s, pos) && Lesser(s, pos, child)
    ensures HoleAt(Swapped(s, pos, child), child)
  {
    assert Parent(child) == pos;
    var t := Swapped(s, pos, child);
    forall i: nat {:trigger t[i]} | 0 < i < |t| && i != child && Parent(i) != child
      ensures t[Parent(i)].seconds <= t[i].seconds
    {
      if i == pos { assert t[pos] == s[child] && t[Parent(i)] == s[Parent(i)]; }
      else if Parent(i) == pos { assert t[pos] == s[child] && t[i] == s[i]; }
      else { assert t[i] == s[i] && t[Parent(i)] == s[Parent(i)]; }
    }
    forall i: nat {:trigger t[i]} | 0 < i < |t| && Parent(i) == child
      ensures t[Parent(child)].seconds <= t[i].seconds
    {
      assert t[pos] == s[child] && t[i] == s[i];
    }
  }

  lemma Settle(s: seq<Timer>, pos: nat)
    requires pos < |s| && OrderedBut(s, pos) && (pos > 0 ==> s[Parent(pos)].seconds <= s[pos].seconds)
    ensures Ordered(s)
  {}

  /** A hole without children needs no more sinking. */
  lemma Bottom(s: seq<Timer>, pos: nat)
    requires pos < |s| <= 2 * pos + 1 && HoleAt(s, pos)
    ensures OrderedBut(s, pos) && Spans(s, pos)
  {}

  /** A new root over the rest of a heap is a hole at the top. */
  lemma NewRoot(s: seq<Timer>, t: seq<Timer>)
    requires 0 < |t| == |s| - 1 && Ordered(s) && t[1..] == s[1..|t|]
    ensures HoleAt(t, 0)
  {
    forall i: nat {:trigger t[i]} | 0 < i < |t| && Parent(i) != 0
      ensures t[Parent(i)].seconds <= t[i].seconds
    {
      var p := Parent(i);
      assert t[i] == t[1..][i - 1] && s[i] == s[1..|t|][i - 1];
      assert t[p] == t[1..][p - 1] && s[p] == s[1..|t|][p - 1];
      assert s[p].seconds <= s[i].seconds;
    }
  }

  lemma NewRootKeeps(s: seq<Timer>, n: nat)
    requires 0 < n == |s| - 1
    ensures s[..n][0 := s[n]][1..] == s[1..n]
    ensures multiset(s) == multiset(s[..n][0 := s[n]]) + multiset{s[0]}
  {
    assert s == [s[0]] + s[1..n] + [s[n]];
    assert s[..n][0 := s[n]] == [s[n]] + s[1..n];
  }

  /** What the array holds, with the moving item put in the hole, before and after one move. */
  lemma MoveHole(items: seq<Timer>, v: seq<Timer>, pos: nat, q: nat, x: Timer)
    requires pos < |items| && q < |items| && pos != q && items[pos := x] == v
    ensures v[q] == items[q] && v[pos] == x
    ensures items[pos := items[q]][q := x] == Swapped(v, pos, q)
  {}

  lemma StillLesser(items: seq<Timer>, pos: nat, child: nat, x: Timer)
    requires pos < |items| && Lesser(items, pos, child)
    ensures Lesser(items[pos := x], pos, child) && pos < child < |items|
  {}

  lemma Append(order: seq<Timer>, t: Timer)
    requires Sorted(order) && forall i :: 0 <= i < |order| ==> order[i].seconds <= t.seconds
    ensures Sorted(order + [t])
  {}

  lemma NewLeaf(s: seq<Timer>, x: Timer)
    requires Ordered(s)
    ensures OrderedBut(s + [x], |s|) && Spans(s + [x], |s|)
  {
    var u: seq<Timer> := s + [x];
    forall i: nat {:trigger u[i]} | 0 < i < |s|
      ensures u[Parent(i)].seconds <= u[i].seconds
    {
      assert u[i] == s[i] && u[Parent(i)] == s[Parent(i)];
    }
  }

  lemma NoHeap()
    ensures Ordered([])
  {}

  lemma Nothing()
    ensures Sorted([])
  {}

  lemma RootOfAll(s: seq<Timer>)
    requires Ordered(s) && |s| > 0
    ensures forall t: Timer :: t in multiset(s) ==> s[0].seconds <= t.seconds
  {
    forall t: Timer | t in multiset(s) ensures s[0].seconds <= t.seconds {
      var i :| 0 <= i < |s| && s[i] == t;
      RootIsLeast(s, i);
    }
  }

  /** Sorted by deadline. */
  predicate Sorted(s: seq<Timer>) {
    forall i, j :: 0 <= i < j < |s| ==> s[i].seconds <= s[j].seconds
  }

  class Heapq {
    var heap: array<Timer?>
    var size: nat
    var max: nat

    ghost predicate Shape()
      reads this, heap
    {
      && heap.Length == max && size <= max && max > 0
      && (forall i :: 0 <= i < size ==> heap[i] != null)
    }

    ghost predicate Valid()
      reads this, heap
    {
      Shape() && Ordered(Items())
    }

    /** The timers held, in array order. */
    ghost function Items(): (s: seq<Timer>)
      requires Shape()
      reads this, heap
      ensures |s| == size
    {
      heap[..size]
    }

    /** The timers held. */
    ghost function Contents(): multiset<Timer>
      reads this, heap
    {
      if Shape() then multiset(Items()) else multiset{}
    }

    lemma Hollow()
      requires Valid() && size == 0
      ensures Contents() == multiset{}
    {}

    /** The root is a least timer. */
    lemma RootFirst()
      requires Valid() && size > 0
      ensures heap.Length > 0 && heap[0] != null && heap[0] in Contents()
      ensures forall t: Timer :: t in Contents() ==> heap[0].seconds <= t.seconds
    {
      RootOfAll(Items());
    }

    /** init_queue. */
    constructor ()
      ensures Valid() && fresh(heap) && size == 0 && Contents() == multiset{} && max == 4096
    {
      heap := new Timer?[4096](_ => null);
      size, max := 0, 4096;
    }

    /** _siftdown: towards the root. */
    method SiftDown(startpos: nat, pos0: nat)
      requires Shape() && pos0 < size && startpos <= pos0
      requires OrderedBut(Items(), pos0) && Spans(Items(), pos0)
      modifies heap
      ensures Shape() && multiset(Items()) == old(multiset(Items()))
      ensures startpos == 0 ==> Ordered(Items())
    {
      hide Ordered, OrderedBut, Spans, Swapped;
      var pos := pos0;
      var newitem := heap[pos];
      ghost var v := Items();
      while pos > startpos
        invariant pos < size && Shape() && newitem != null
        invariant |v| == size && Items()[pos := newitem] == v
        invariant OrderedBut(v, pos) && Spans(v, pos) && multiset(v) == old(multiset(Items()))
        decreases pos
      {
        var parentpos := (pos - 1) / 2;
        var parent := heap[parentpos];
        assert parentpos == Parent(pos);
        MoveHole(Items(), v, pos, parentpos, newitem);
        if newitem.seconds < parent.seconds {
          Rise(v, pos);
          SwapKeeps(v, pos, parentpos);
          ghost var was := Items();
          v := Swapped(v, pos, parentpos);
          heap[pos] := parent;
          assert Items() == was[pos := was[parentpos]];
          pos := parentpos;
        } else {
          Settle(v, pos);
          break;
        }
      }
      heap[pos] := newitem;
      assert Items() == v;
      if pos == 0 { Settle(v, 0); }
    }

    /** The child the hole moves to: the left one unless the right one is earlier. */
    method LeastChild(pos: nat, leftpos: nat) returns (childpos: nat)
      requires Shape() && leftpos == 2 * pos + 1 < size
      ensures childpos < size && Lesser(Items(), pos, childpos)
    {
      childpos := leftpos;
      var rightpos := childpos + 1;
      if rightpos < size && heap[childpos].seconds > heap[rightpos].seconds {
        childpos := rightpos;
      }
    }

    /** _siftup: the hole runs to a leaf, the item then climbs from there. */
    method SiftUp(pos0: nat)
      requires Shape() && pos0 < size && HoleAt(Items(), pos0)
      modifies heap
      ensures Shape() && multiset(Items()) == old(multiset(Items()))
      ensures pos0 == 0 ==> Ordered(Items())
    {
      hide Ordered, OrderedBut, Spans, HoleAt, Swapped, Lesser;
      var pos := pos0;
      var newitem := heap[pos];
      var childpos := 2 * pos + 1;
      ghost var v := Items();
      while childpos < size
        invariant pos0 <= pos < size && childpos == 2 * pos + 1 && Shape() && newitem != null
        invariant |v| == size && Items()[pos := newitem] == v
        invariant HoleAt(v, pos) && multiset(v) == old(multiset(Items()))
        decreases size - pos
      {
        childpos := LeastChild(pos, childpos);
        var childpositem := heap[childpos];
        ghost var was := Items();
        MoveHole(was, v, pos, childpos, newitem);
        StillLesser(was, pos, childpos, newitem);
        Sink(v, pos, childpos);
        SwapKeeps(v, pos, childpos);
        v := Swapped(v, pos, childpos);
        heap[pos] := childpositem;
        assert Items() == was[pos := was[childpos]];
        pos := childpos;
        childpos := 2 * pos + 1;
      }
      heap[pos] := newitem;
      assert Items() == v;
      Bottom(v, pos);
      SiftDown(pos0, pos);
    }

    /** heappop. */
    method HeapPop() returns (item: Timer?)
      requires Valid()
      modifies this`size, heap
      ensures Valid()
      ensures item == null <==> old(size) == 0
      ensures item == null ==> Contents() == old(Contents()) && size == old(size)
      ensures item != null ==>
        && size == old(size) - 1
        && Contents() + multiset{item} == old(Contents())
        && item == old(if heap.Length > 0 then heap[0] else null)
        && forall t :: t in old(Contents()) ==> item.seconds <= t.seconds
    {
      if size == 0 { return null; }
      hide Ordered, HoleAt;
      ghost var s := Items();
      RootOfAll(s);
      size := size - 1;
      var last := heap[size];
      heap[size] := null;
      if size > 0 {
        item := heap[0];
        heap[0] := last;
        assert Items() == s[..size][0 := last];
        NewRootKeeps(s, size);
        NewRoot(s, Items());
        SiftUp(0);
      } else {
        item := last;
        assert s == [last] && Items() == [];
        NoHeap();
      }
    }

    /** heappush: alloc is what realloc answers. */
    method HeapPush(val: Timer, alloc: bool) returns (ok: bool)
      requires Valid()
      modifies this, heap
      ensures Valid() && (heap == old(heap) || fresh(heap))
      ensures ok == (old(size) < old(max) || alloc)
      ensures ok ==> Contents() == old(Contents()) + multiset{val}
      ensures !ok ==> Contents() == old(Contents()) && size == old(size) && heap == old(heap)
      ensures size == old(size) + if ok then 1 else 0
      ensures max == if old(size) == old(max) && ok then 2 * old(max) else old(max)
    {
      hide Ordered, OrderedBut, Spans;
      ghost var s := Items();
      if size >= max {
        if !alloc { return false; }
        var grown := new Timer?[max * 2](_ => null);
        forall i | 0 <= i < size { grown[i] := heap[i]; }
        max := max * 2;
        heap := grown;
        assert Items() == s;
      }
      heap[size] := val;
      size := size + 1;
      assert Items() == s + [val];
      NewLeaf(s, val);
      SiftDown(0, size - 1);
      ok := true;
    }

    /** destroy_queue: what the queue held, in the order it is let go. */
    method Drain() returns (order: seq<Timer>)
      requires Valid()
      modifies this`size, heap
      ensures Valid() && size == 0
      ensures Sorted(order) && multiset(order) == old(Contents())
    {
      hide Ordered, Sorted;
      order := [];
      Nothing();
      while size > 0
        invariant Valid() && heap == old(heap)
        invariant Sorted(order) && multiset(order) + Contents() == old(Contents())
        invariant forall t, i :: t in Contents() && 0 <= i < |order| ==> order[i].seconds <= t.seconds
        decreases size
      {
        var obj := HeapPop();
        Append(order, obj);
        order := order + [obj];
      }
    }
  }
}
