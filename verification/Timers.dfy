/** `TimeStamp` (base/timestamp.h). */
module TimeStamps {
  import opened Bytes

  /** C++ division truncates toward zero. */
  function TruncDiv(a: int, b: int): int
    requires b > 0
  {
    if a >= 0 then a / b else -((-a) / b)
  }

  function TruncMod(a: int, b: int): int
    requires b > 0
  {
    a - TruncDiv(a, b) * b
  }

  datatype TimeStamp = TimeStamp(sec: int, msec: int) {
    predicate Normal() { 0 <= msec < 1000 }

    function Millis(): int { sec * 1000 + msec }

    /** `operator<` */
    predicate Less(that: TimeStamp)
    {
      if sec != that.sec then sec < that.sec else msec < that.msec
    }

    /** `operator-`, with its cast to `int` */
    function Minus(that: TimeStamp): int
    {
      AsInt32((sec - that.sec) * 1000 + msec - that.msec)
    }
  }

  /** `after_now_ms` at the time `now` */
  function AfterMs(now: TimeStamp, after: int): TimeStamp
  {
    var tmp := now.msec + after;
    TimeStamp(now.sec + TruncDiv(tmp, 1000), TruncMod(tmp, 1000))
  }

  /** On normal stamps the comparison is the order of milliseconds. */
  lemma LessIsMillis(a: TimeStamp, b: TimeStamp)
    requires a.Normal() && b.Normal()
    ensures a.Less(b) <==> a.Millis() < b.Millis()
  {
  }

  /** A delay is added exactly, and the stamp is normal exactly when the delay does not reach back
      into an earlier second in part. */
  lemma AfterMsMeaning(now: TimeStamp, after: int)
    requires now.Normal()
    ensures AfterMs(now, after).Millis() == now.Millis() + after
    ensures AfterMs(now, after).Normal() <==> now.msec + after >= 0 || (now.msec + after) % 1000 == 0
  {
    var tmp := now.msec + after;
    if tmp < 0 {
      var q, r := (-tmp) / 1000, (-tmp) % 1000;
      assert -tmp == q * 1000 + r;
      assert TruncMod(tmp, 1000) == -r;
      assert tmp % 1000 == 0 <==> r == 0;
    }
  }

  /** The comparison of two stamps is the order in time. */
  predicate InOrder(a: TimeStamp, b: TimeStamp)
  {
    (a.Less(b) <==> a.Millis() < b.Millis()) && (b.Less(a) <==> b.Millis() < a.Millis())
  }

  /** The stamp of a delay compares with every normal stamp as the times do if and only if the delay
      does not reach back into an earlier second in part; the last stamp of the second before is
      the one that fails otherwise. */
  lemma OrderExactly(now: TimeStamp, after: int)
    requires now.Normal()
    ensures (forall b: TimeStamp :: b.Normal() ==> InOrder(AfterMs(now, after), b))
            <==> now.msec + after >= 0 || (now.msec + after) % 1000 == 0
  {
    var a := AfterMs(now, after);
    AfterMsMeaning(now, after);
    if a.Normal() {
      forall b: TimeStamp | b.Normal() ensures InOrder(a, b) {
        LessIsMillis(a, b);
        LessIsMillis(b, a);
      }
    } else {
      assert -1000 < a.msec < 0;
      assert !InOrder(a, TimeStamp(a.sec - 1, 999));
    }
  }

  /** With a negative delay the order of stamps can differ from the order in time. */
  lemma NegativeDelayMisorders()
    ensures var late, early := TimeStamp(4, 600), AfterMs(TimeStamp(5, 0), -500);
            early.Millis() < late.Millis() && late.Less(early)
  {
  }
}

/** `TimerManager` (net/timer_manager.h) on an array heap with the non-strict comparator of the
    source, and the drain of net/eventloop.cpp:111-124. */
module Timers {
  import opened TimeStamps

  datatype Timer = Timer(stamp: TimeStamp, func: int)

  /** `Timer::operator<`, which is true on equal stamps. */
  predicate Lower(a: Timer, b: Timer) { !a.stamp.Less(b.stamp) }

  predicate NotAfter(a: Timer, b: Timer) { !b.stamp.Less(a.stamp) }

  function Parent(i: nat): nat
    requires i > 0
  {
    (i - 1) / 2
  }

  predicate OrderedAt(q: seq<Timer>, j: nat)
    requires 0 < j < |q|
  {
    NotAfter(q[Parent(j)], q[j])
  }

  ghost predicate Heap(q: seq<Timer>)
  {
    forall j :: 0 < j < |q| ==> OrderedAt(q, j)
  }

  /** All pairs are ordered except those of the element at `i` with its parent. */
  ghost predicate HeapBut(q: seq<Timer>, i: nat)
  {
    && (forall j :: 0 < j < |q| && j != i ==> OrderedAt(q, j))
    && (forall j :: 0 < i && 0 < j < |q| && Parent(j) == i && i < |q| ==> NotAfter(q[Parent(i)], q[j]))
  }

  /** All pairs are ordered except those that involve the element at `h`. */
  ghost predicate HeapAround(q: seq<Timer>, h: nat)
  {
    && (forall j :: 0 < j < |q| && j != h && Parent(j) != h ==> OrderedAt(q, j))
    && (forall j :: 0 < h && 0 < j < |q| && Parent(j) == h && h < |q| ==> NotAfter(q[Parent(h)], q[j]))
  }

  /** The first element of a heap is not after any other. */
  lemma {:induction false} TopIsFirst(q: seq<Timer>, i: nat)
    requires Heap(q) && i < |q|
    ensures NotAfter(q[0], q[i])
  {
    if i > 0 {
      TopIsFirst(q, Parent(i));
      assert OrderedAt(q, i);
    }
  }

  function Swapped(q: seq<Timer>, i: nat, j: nat): seq<Timer>
    requires i < |q| && j < |q|
  {
    q[i := q[j]][j := q[i]]
  }

  lemma SwapKeepsAll(q: seq<Timer>, i: nat, j: nat)
    requires i < |q| && j < |q|
    ensures multiset(Swapped(q, i, j)) == multiset(q)
  {
  }

  lemma UpStep(q: seq<Timer>, i: nat)
    requires 0 < i < |q| && HeapBut(q, i) && Lower(q[Parent(i)], q[i])
    ensures HeapBut(Swapped(q, i, Parent(i)), Parent(i))
  {
    var p := Parent(i);
    var r := Swapped(q, i, p);
    forall j | 0 < j < |r| && j != p ensures OrderedAt(r, j) {
      if j != i {
        assert OrderedAt(q, j);
      }
    }
    forall j | 0 < p && 0 < j < |r| && Parent(j) == p ensures NotAfter(r[Parent(p)], r[j]) {
      assert OrderedAt(q, p);
      if j != i {
        assert OrderedAt(q, j);
      }
    }
  }

  lemma DownStep(q: seq<Timer>, h: nat, c: nat)
    requires h < c < |q| && Parent(c) == h && HeapAround(q, h)
    requires forall j :: 0 < j < |q| && Parent(j) == h ==> NotAfter(q[c], q[j])
    ensures HeapAround(Swapped(q, h, c), c)
  {
    var r := Swapped(q, h, c);
    forall j | 0 < j < |r| && j != c && Parent(j) != c ensures OrderedAt(r, j) {
      if j != h && Parent(j) != h {
        assert OrderedAt(q, j);
      }
    }
    forall j | 0 < j < |r| && Parent(j) == c ensures NotAfter(r[Parent(c)], r[j]) {
      assert OrderedAt(q, j);
    }
  }

  /** The child that the walk goes to is not after the other one. */
  lemma LowerChild(q: seq<Timer>, h: nat, c: nat)
    requires h < c < |q| && Parent(c) == h
    requires if c == 2 * h + 1 then c + 1 == |q| || Lower(q[c + 1], q[c]) else !Lower(q[c], q[c - 1])
    ensures forall j :: 0 < j < |q| && Parent(j) == h ==> NotAfter(q[c], q[j])
  {
    forall j | 0 < j < |q| && Parent(j) == h ensures NotAfter(q[c], q[j]) {
      assert j == 2 * h + 1 || j == 2 * h + 2;
    }
  }

  class TimerManager {
    var queue: seq<Timer>

    ghost predicate Valid()
      reads this
    {
      Heap(queue)
    }

    constructor ()
      ensures Valid() && queue == []
    {
      queue := [];
    }

    /** The sift of `push_heap` from index `start`. */
    method SiftUp(start: nat)
      requires start < |queue| && HeapBut(queue, start)
      modifies this
      ensures Valid() && |queue| == old(|queue|) && multiset(queue) == old(multiset(queue))
    {
      var i: nat := start;
      while i > 0 && Lower(queue[Parent(i)], queue[i])
        invariant i < |queue| == old(|queue|) && HeapBut(queue, i)
        invariant multiset(queue) == old(multiset(queue))
      {
        UpStep(queue, i);
        SwapKeepsAll(queue, i, Parent(i));
        queue := Swapped(queue, i, Parent(i));
        i := Parent(i);
      }
      forall j | 0 < j < |queue| ensures OrderedAt(queue, j) {
      }
    }

    /** `add_timer` */
    method AddTimer(stamp: TimeStamp, func: int)
      requires Valid()
      modifies this
      ensures Valid() && multiset(queue) == old(multiset(queue)) + multiset{Timer(stamp, func)}
    {
      ghost var q := queue;
      queue := queue + [Timer(stamp, func)];
      forall j | 0 < j < |q| ensures OrderedAt(queue, j) {
        assert OrderedAt(q, j);
      }
      SiftUp(|queue| - 1);
    }

    /** `top` and `get_latest_timer` */
    method Top() returns (t: Timer)
      requires Valid() && queue != []
      ensures t == queue[0] && forall u :: u in queue ==> NotAfter(t, u)
    {
      t := queue[0];
      forall u | u in queue ensures NotAfter(t, u) {
        var i :| 0 <= i < |queue| && queue[i] == u;
        TopIsFirst(queue, i);
      }
    }

    /** The walk of the hole from the root to a leaf in `pop_heap`, always along the lower child. */
    method SiftDown() returns (h: nat)
      requires queue != [] && HeapAround(queue, 0)
      modifies this
      ensures h < |queue| == old(|queue|) && HeapBut(queue, h)
      ensures multiset(queue) == old(multiset(queue))
    {
      h := 0;
      while 2 * h + 1 < |queue|
        invariant h < |queue| == old(|queue|) && HeapAround(queue, h)
        invariant multiset(queue) == old(multiset(queue))
        decreases |queue| - h
      {
        var c := 2 * h + 2;
        if c == |queue| || Lower(queue[c], queue[c - 1]) {
          c := c - 1;
        }
        LowerChild(queue, h, c);
        DownStep(queue, h, c);
        SwapKeepsAll(queue, h, c);
        queue := Swapped(queue, h, c);
        h := c;
      }
    }

    /** `pop` */
    method Pop()
      requires Valid() && queue != []
      modifies this
      ensures Valid() && multiset(queue) == old(multiset(queue)) - multiset{old(queue[0])}
      ensures |queue| == old(|queue|) - 1 && forall t :: t in queue ==> t in old(queue)
    {
      ghost var q := queue;
      var n := |queue| - 1;
      var last := queue[n];
      assert q == q[..n] + [last];
      queue := queue[..n];
      if n > 0 {
        PopRoot(q, n);
        queue := queue[0 := last];
        var h := SiftDown();
        SiftUp(h);
      }
      forall t | t in queue ensures t in q {
        assert t in multiset(queue);
        assert t in multiset(q);
      }
    }

    /** The drain: it takes exactly the timers earlier than `now`, in non-decreasing order, leaves
        exactly the others, and loses or repeats none. */
    method Drain(now: TimeStamp) returns (exe: seq<Timer>)
      requires Valid()
      modifies this
      ensures Valid() && multiset(exe) + multiset(queue) == old(multiset(queue))
      ensures forall t :: t in exe ==> t.stamp.Less(now)
      ensures forall t :: t in queue ==> !t.stamp.Less(now)
      ensures forall i, j :: 0 <= i < j < |exe| ==> NotAfter(exe[i], exe[j])
    {
      exe := [];
      while queue != []
        invariant Valid() && multiset(exe) + multiset(queue) == old(multiset(queue))
        invariant forall t :: t in exe ==> t.stamp.Less(now)
        invariant forall i, j :: 0 <= i < j < |exe| ==> NotAfter(exe[i], exe[j])
        invariant forall i, t :: 0 <= i < |exe| && t in queue ==> NotAfter(exe[i], t)
        decreases |queue|
      {
        var tm := Top();
        if !tm.stamp.Less(now) {
          break;
        }
        assert tm in queue;
        exe := exe + [tm];
        Pop();
      }
      forall t | t in queue ensures !t.stamp.Less(now) {
        var i :| 0 <= i < |queue| && queue[i] == t;
        TopIsFirst(queue, i);
      }
    }
  }

  lemma PopRoot(q: seq<Timer>, n: nat)
    requires Heap(q) && |q| == n + 1 && n > 0
    ensures HeapAround(q[..n][0 := q[n]], 0)
    ensures multiset(q[..n][0 := q[n]]) == multiset(q) - multiset{q[0]}
  {
    var r := q[..n][0 := q[n]];
    forall j | 0 < j < |r| && Parent(j) != 0 ensures OrderedAt(r, j) {
      assert OrderedAt(q, j);
    }
    assert q == q[..n] + [q[n]];
    assert q[..n] == [q[0]] + q[1..n];
    assert r == [q[n]] + q[1..n];
  }
}
