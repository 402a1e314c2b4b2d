/** The wakeup, queue and timer protocol of `EventLoop` (net/eventloop.cpp, net/eventloop.h).

Any number of threads call `add_func`, `run_after` and `stop` while one thread runs `loop`.  A
state holds the shared data, the program counter of the loop and that of every thread inside a
call; a step is one lock section, one eventfd access, one return of `epoll_wait`, or one step of
the loop between them.  The loop thread itself takes part as `LOOP`, from inside handlers,
functions and timers.  Clock readings are arbitrary. */
module EventLoop {
  import opened Bytes
  import opened TimeStamps
  import opened Timers
  import BigEndian

  type Tid = nat
  type Func = int

  const LOOP: Tid := 0
  const DEFAULT_TIMEOUT := 256
  const EVENTFD_MAX := TWO_64 - 2

  datatype Option<T> = None | Some(value: T)

  /** Where a thread is inside a call; a thread outside of any call is not in the table. */
  datatype ThreadPc =
    | Pushed(f: Func)         // add_func: lock held, function queued, eventfd not yet written
    | Woke                    // add_func: eventfd written, lock still held
    | Armed(t: Timer)         // run_after: lock released, eventfd not yet written
    | Flagged                 // stop: flag set, eventfd not yet written

  datatype LoopPc =
    | Check                   // while (!_is_stop.load())
    | Compute                 // the timeout, under the timer lock
    | Wait(read: TimeStamp, top: Option<Timer>, timeout: nat)   // epoll_wait
    | Handle                  // events; the eventfd may be among them
    | Swap                    // the function queue is taken, under its lock
    | RunFuncs(batch: seq<Func>)
    | Drain                   // due timers are taken, under the timer lock
    | RunTimers(due: seq<Timer>, clock: TimeStamp)
    | Exited

  /** A timer that ran, and the clock reading that released it. */
  datatype Firing = Firing(t: Timer, clock: TimeStamp)

  /** The last five fields are history. */
  datatype State = State(
    pc: LoopPc,
    efd: nat,
    stop: bool,
    funcs: seq<Func>,
    lock: Option<Tid>,
    timers: multiset<Timer>,
    threads: map<Tid, ThreadPc>,
    added: seq<Func>,
    executed: seq<Func>,
    armed: multiset<Timer>,
    fired: seq<Firing>,
    stopDone: bool)

  const INIT := State(Check, 0, false, [], None, multiset{}, map[], [], [], multiset{}, [], false)

  datatype Step =
    | BeginAdd(tid: Tid, f: Func) | WriteAdd(tid: Tid) | EndAdd(tid: Tid)
    | AddTimer(tid: Tid, read: TimeStamp, after: int, func: Func) | WriteTimer(tid: Tid)
    | SetStop(tid: Tid) | WriteStop(tid: Tid)
    | LoopCheck
    | LoopCompute(read: TimeStamp, top: Option<Timer>)
    | LoopReturn              // epoll_wait returns events or times out
    | LoopInterrupted         // epoll_wait fails with EINTR: continue
    | LoopRead                // the handler of the eventfd reads it
    | LoopHandled
    | LoopSwap
    | LoopExec
    | LoopFuncsDone
    | LoopDrain(clock: TimeStamp, due: seq<Timer>)
    | LoopFire
    | LoopTimersDone

  /** The loop thread calls into the loop from user code only, every other thread at any time. */
  predicate MayCall(s: State, tid: Tid)
  {
    tid !in s.threads && (tid == LOOP ==> s.pc.Handle? || s.pc.RunFuncs? || s.pc.RunTimers?)
  }

  /** What `TimerManager::top` gives. */
  ghost predicate IsTop(timers: multiset<Timer>, top: Option<Timer>)
  {
    match top
    case None => timers == multiset{}
    case Some(t) => t in timers && forall u :: u in timers ==> NotAfter(t, u)
  }

  /** What the drain of the heap gives, and leaves. */
  ghost predicate IsDue(timers: multiset<Timer>, clock: TimeStamp, due: seq<Timer>)
  {
    && multiset(due) <= timers
    && (forall t :: t in due ==> t.stamp.Less(clock))
    && (forall t :: t in timers - multiset(due) ==> !t.stamp.Less(clock))
    && (forall i, j :: 0 <= i < j < |due| ==> NotAfter(due[i], due[j]))
  }

  ghost predicate Enabled(s: State, step: Step)
  {
    match step
    case BeginAdd(tid, f) => MayCall(s, tid) && s.lock.None?
    case WriteAdd(tid) => tid in s.threads && s.threads[tid].Pushed?
    case EndAdd(tid) => tid in s.threads && s.threads[tid].Woke?
    case AddTimer(tid, read, after, func) => MayCall(s, tid) && read.Normal()
    case WriteTimer(tid) => tid in s.threads && s.threads[tid].Armed?
    case SetStop(tid) => MayCall(s, tid)
    case WriteStop(tid) => tid in s.threads && s.threads[tid].Flagged?
    case _ => LOOP !in s.threads && LoopEnabled(s, step)
  }

  ghost predicate LoopEnabled(s: State, step: Step)
  {
    match step
    case LoopCheck => s.pc.Check?
    case LoopCompute(read, top) => s.pc.Compute? && read.Normal() && IsTop(s.timers, top)
    case LoopReturn => s.pc.Wait?
    case LoopInterrupted => s.pc.Wait?
    case LoopRead => s.pc.Handle?
    case LoopHandled => s.pc.Handle?
    case LoopSwap => s.pc.Swap? && s.lock.None?
    case LoopExec => s.pc.RunFuncs? && s.pc.batch != []
    case LoopFuncsDone => s.pc.RunFuncs? && s.pc.batch == []
    case LoopDrain(clock, due) => s.pc.Drain? && IsDue(s.timers, clock, due)
    case LoopFire => s.pc.RunTimers? && s.pc.due != []
    case LoopTimersDone => s.pc.RunTimers? && s.pc.due == []
    case _ => false
  }

  /** A write of 1 to the eventfd; when the counter is full it fails with EAGAIN. */
  function Written(efd: nat): nat { if efd < EVENTFD_MAX then efd + 1 else efd }

  /** The timeout of `epoll_wait`. */
  function Timeout(read: TimeStamp, top: Option<Timer>): nat
  {
    match top
    case None => DEFAULT_TIMEOUT
    case Some(t) => Max(0, t.stamp.Minus(read))
  }

  ghost function Next(s: State, step: Step): State
    requires Enabled(s, step)
  {
    match step
    case BeginAdd(tid, f) =>
      s.(lock := Some(tid), funcs := s.funcs + [f], added := s.added + [f], threads := s.threads[tid := Pushed(f)])
    case WriteAdd(tid) => s.(efd := Written(s.efd), threads := s.threads[tid := Woke])
    case EndAdd(tid) => s.(lock := None, threads := s.threads - {tid})
    case AddTimer(tid, read, after, func) =>
      var t := Timer(AfterMs(read, after), func);
      s.(timers := s.timers + multiset{t}, armed := s.armed + multiset{t}, threads := s.threads[tid := Armed(t)])
    case WriteTimer(tid) => s.(efd := Written(s.efd), threads := s.threads - {tid})
    case SetStop(tid) => s.(stop := true, threads := s.threads[tid := Flagged])
    case WriteStop(tid) => s.(efd := Written(s.efd), stopDone := true, threads := s.threads - {tid})
    case LoopCheck => s.(pc := if s.stop then Exited else Compute)
    case LoopCompute(read, top) => s.(pc := Wait(read, top, Timeout(read, top)))
    case LoopReturn => s.(pc := Handle)
    case LoopInterrupted => s.(pc := Check)
    case LoopRead => s.(efd := 0)
    case LoopHandled => s.(pc := Swap)
    case LoopSwap => s.(pc := RunFuncs(s.funcs), funcs := [])
    case LoopExec => s.(pc := RunFuncs(s.pc.batch[1..]), executed := s.executed + [s.pc.batch[0]])
    case LoopFuncsDone => s.(pc := Drain)
    case LoopDrain(clock, due) => s.(pc := RunTimers(due, clock), timers := s.timers - multiset(due))
    case LoopFire =>
      s.(pc := RunTimers(s.pc.due[1..], s.pc.clock), fired := s.fired + [Firing(s.pc.due[0], s.pc.clock)])
    case LoopTimersDone => s.(pc := Check)
  }

  /** The kernel keeps the loop asleep: `epoll_wait` with a positive timeout and nothing to read on
      the eventfd. */
  predicate Asleep(s: State) { s.pc.Wait? && s.pc.timeout > 0 && s.efd == 0 }

  /** `top` of the heap of timers is the top that the loop computes with. */
  lemma TopIsTop(q: seq<Timer>)
    requires Heap(q)
    ensures IsTop(multiset(q), if q == [] then None else Some(q[0]))
  {
    forall u | u in multiset(q) && q != [] ensures NotAfter(q[0], u) {
      var i :| 0 <= i < |q| && q[i] == u;
      TopIsFirst(q, i);
    }
  }

  /** What the drain of the heap promises is what the loop takes and leaves. */
  lemma DrainIsDue(before: multiset<Timer>, clock: TimeStamp, due: seq<Timer>, after: multiset<Timer>)
    requires multiset(due) + after == before
    requires forall t :: t in due ==> t.stamp.Less(clock)
    requires forall t :: t in after ==> !t.stamp.Less(clock)
    requires forall i, j :: 0 <= i < j < |due| ==> NotAfter(due[i], due[j])
    ensures IsDue(before, clock, due) && after == before - multiset(due)
  {
    assert after == before - multiset(due);
  }

  /** The head of the loop: the timeout from the heap of timers and a clock reading. */
  method ComputeTimeout(timers: TimerManager, read: TimeStamp) returns (timeout: nat, top: Option<Timer>)
    requires timers.Valid()
    ensures IsTop(multiset(timers.queue), top) && timeout == Timeout(read, top)
  {
    TopIsTop(timers.queue);
    if timers.queue == [] {
      return DEFAULT_TIMEOUT, None;
    }
    var tm := timers.Top();
    var ms := tm.stamp.Minus(read);
    timeout := if ms < 0 then 0 else ms;
    top := Some(tm);
  }

  /** The tail of the loop: the due timers leave the heap. */
  method TakeDue(timers: TimerManager, clock: TimeStamp) returns (due: seq<Timer>)
    requires timers.Valid()
    modifies timers
    ensures timers.Valid()
    ensures IsDue(old(multiset(timers.queue)), clock, due)
    ensures multiset(timers.queue) == old(multiset(timers.queue)) - multiset(due)
  {
    due := timers.Drain(clock);
    DrainIsDue(old(multiset(timers.queue)), clock, due, multiset(timers.queue));
  }

  // ---------------------------------------------------------------- invariants

  /** The function lock is held exactly by the thread inside `add_func`. */
  ghost predicate Locked(s: State)
  {
    forall tid :: tid in s.threads && (s.threads[tid].Pushed? || s.threads[tid].Woke?) <==> s.lock == Some(tid)
  }

  /** The functions taken by the loop and not yet run. */
  function Batch(pc: LoopPc): seq<Func> { if pc.RunFuncs? then pc.batch else [] }

  predicate Fifo(s: State) { s.executed + Batch(s.pc) + s.funcs == s.added }

  /** Between a swap and the next return of `epoll_wait`. */
  predicate BehindSwap(pc: LoopPc) { !pc.Handle? && !pc.Swap? && !pc.Exited? }

  ghost predicate Wakeable(s: State)
  {
    BehindSwap(s.pc) && s.funcs != [] && s.efd == 0 ==> exists tid :: tid in s.threads && s.threads[tid].Pushed?
  }

  /** The `run_after` that armed `t` has its eventfd write still to come. */
  ghost predicate WriteToCome(s: State, t: Timer) { exists tid :: tid in s.threads && s.threads[tid] == Armed(t) }

  /** The timeout was computed from a timer that does not compare as later than `t`. */
  predicate ComputedFor(pc: LoopPc, t: Timer)
    requires pc.Wait?
  {
    && pc.top.Some? && NotAfter(pc.top.value, t)
    && pc.timeout == Timeout(pc.read, pc.top)
  }

  ghost predicate Timely(s: State)
  {
    s.pc.Wait? ==> forall t :: t in s.timers ==> s.efd > 0 || WriteToCome(s, t) || ComputedFor(s.pc, t)
  }

  ghost predicate Stopping(s: State)
  {
    && (s.stopDone ==> s.stop)
    && ((exists tid :: tid in s.threads && s.threads[tid].Flagged?) ==> s.stop)
    && (s.stop && (s.pc.Compute? || s.pc.Wait?) && s.efd == 0 ==>
          !s.stopDone && exists tid :: tid in s.threads && s.threads[tid].Flagged?)
  }

  function Due(pc: LoopPc): seq<Timer> { if pc.RunTimers? then pc.due else [] }

  function TimersOf(fired: seq<Firing>): multiset<Timer>
  {
    if fired == [] then multiset{} else TimersOf(fired[..|fired| - 1]) + multiset{fired[|fired| - 1].t}
  }

  ghost predicate Conserved(s: State)
  {
    && s.armed == s.timers + multiset(Due(s.pc)) + TimersOf(s.fired)
    && (forall i :: 0 <= i < |s.fired| ==> s.fired[i].t.stamp.Less(s.fired[i].clock))
    && (s.pc.RunTimers? ==> forall t :: t in s.pc.due ==> t.stamp.Less(s.pc.clock))
  }

  // ---------------------------------------------------------------- every step keeps them

  lemma LockedStep(s: State, step: Step)
    requires Locked(s) && Enabled(s, step)
    ensures Locked(Next(s, step))
  {
  }

  lemma FifoStep(s: State, step: Step)
    requires Fifo(s) && Enabled(s, step)
    ensures Fifo(Next(s, step))
  {
    var b := Batch(s.pc);
    match step
    case BeginAdd(_, f) => assert s.executed + b + (s.funcs + [f]) == s.executed + b + s.funcs + [f];
    case LoopSwap => assert s.executed + [] + s.funcs == s.executed + s.funcs + [];
    case LoopExec => assert s.executed + b == (s.executed + [b[0]]) + b[1..];
    case _ =>
  }

  lemma WakeableStep(s: State, step: Step)
    requires Wakeable(s) && Locked(s) && Enabled(s, step)
    ensures Wakeable(Next(s, step))
  {
    var r := Next(s, step);
    if BehindSwap(r.pc) && r.funcs != [] && r.efd == 0 {
      if step.BeginAdd? {
        assert step.tid in r.threads && r.threads[step.tid].Pushed?;
      } else {
        var tid :| tid in s.threads && s.threads[tid].Pushed?;
        assert tid in r.threads && r.threads[tid].Pushed?;
      }
    }
  }

  lemma TimelyStep(s: State, step: Step)
    requires Timely(s) && Enabled(s, step)
    ensures Timely(Next(s, step))
  {
    var r := Next(s, step);
    if r.pc.Wait? {
      forall t | t in r.timers ensures r.efd > 0 || WriteToCome(r, t) || ComputedFor(r.pc, t) {
        if step.LoopCompute? {
          assert ComputedFor(r.pc, t);
        } else if t !in s.timers {
          assert step.tid in r.threads && r.threads[step.tid] == Armed(t);
        } else if WriteToCome(s, t) {
          var tid :| tid in s.threads && s.threads[tid] == Armed(t);
          if step != WriteTimer(tid) {
            assert tid in r.threads && r.threads[tid] == Armed(t);
          }
        }
      }
    }
  }

  lemma StoppingStep(s: State, step: Step)
    requires Stopping(s) && Enabled(s, step)
    ensures Stopping(Next(s, step))
  {
    var r := Next(s, step);
    if exists tid :: tid in r.threads && r.threads[tid].Flagged? {
      var tid :| tid in r.threads && r.threads[tid].Flagged?;
      assert step == SetStop(tid) || (tid in s.threads && s.threads[tid].Flagged?);
    }
    if r.stop && (r.pc.Compute? || r.pc.Wait?) && r.efd == 0 {
      if step.SetStop? {
        assert step.tid in r.threads && r.threads[step.tid].Flagged?;
      } else {
        assert s.stop && (s.pc.Compute? || s.pc.Wait?) && s.efd == 0;
        var tid :| tid in s.threads && s.threads[tid].Flagged?;
        assert tid in r.threads && r.threads[tid].Flagged?;
      }
    }
  }

  lemma TimersOfMore(fired: seq<Firing>, f: Firing)
    ensures TimersOf(fired + [f]) == TimersOf(fired) + multiset{f.t}
  {
    var r := fired + [f];
    assert r[..|r| - 1] == fired;
  }

  lemma MoveOne(all: multiset<Timer>, heap: multiset<Timer>, d: seq<Timer>, done: multiset<Timer>)
    requires d != [] && all == heap + multiset(d) + done
    ensures all == heap + multiset(d[1..]) + (done + multiset{d[0]})
  {
    assert d == [d[0]] + d[1..];
  }

  lemma FireStep(s: State)
    requires Conserved(s) && Enabled(s, LoopFire)
    ensures Conserved(Next(s, LoopFire))
  {
    hide TimersOf;
    var d := s.pc.due;
    TimersOfMore(s.fired, Firing(d[0], s.pc.clock));
    MoveOne(s.armed, s.timers, d, TimersOf(s.fired));
  }

  lemma DrainStep(s: State, clock: TimeStamp, due: seq<Timer>)
    requires Conserved(s) && Enabled(s, LoopDrain(clock, due))
    ensures Conserved(Next(s, LoopDrain(clock, due)))
  {
    hide TimersOf;
    assert s.timers == s.timers - multiset(due) + multiset(due);
  }

  lemma ArmStep(s: State, step: Step)
    requires Conserved(s) && Enabled(s, step) && step.AddTimer?
    ensures Conserved(Next(s, step))
  {
    hide TimersOf;
  }

  lemma NoTimerTouched(s: State, step: Step)
    requires Enabled(s, step) && !step.AddTimer? && !step.LoopDrain? && !step.LoopFire?
    ensures var r := Next(s, step);
            && r.armed == s.armed && r.timers == s.timers && r.fired == s.fired && Due(r.pc) == Due(s.pc)
            && (r.pc.RunTimers? ==> r.pc == s.pc)
  {
  }

  lemma ConservedStep(s: State, step: Step)
    requires Conserved(s) && Enabled(s, step)
    ensures Conserved(Next(s, step))
  {
    hide TimersOf;
    if step.LoopFire? {
      FireStep(s);
    } else if step.LoopDrain? {
      DrainStep(s, step.clock, step.due);
    } else if step.AddTimer? {
      ArmStep(s, step);
    } else {
      NoTimerTouched(s, step);
      hide Next;
      hide Enabled;
    }
  }

  // ---------------------------------------------------------------- runs

  /** A run from the initial state. */
  ghost predicate IsRun(states: seq<State>, steps: seq<Step>)
  {
    && |states| == |steps| + 1
    && states[0] == INIT
    && forall i :: 0 <= i < |steps| ==> Enabled(states[i], steps[i]) && states[i + 1] == Next(states[i], steps[i])
  }

  ghost predicate Inv(s: State)
  {
    Locked(s) && Fifo(s) && Wakeable(s) && Timely(s) && Stopping(s) && Conserved(s)
  }

  /** Every state of every run meets all invariants. */
  lemma {:induction false} RunsKeepInv(states: seq<State>, steps: seq<Step>, i: nat)
    requires IsRun(states, steps) && i < |states|
    ensures Inv(states[i])
  {
    if i > 0 {
      RunsKeepInv(states, steps, i - 1);
      var s, step := states[i - 1], steps[i - 1];
      assert states[i] == Next(s, step);
      LockedStep(s, step);
      FifoStep(s, step);
      WakeableStep(s, step);
      TimelyStep(s, step);
      StoppingStep(s, step);
      ConservedStep(s, step);
    }
  }

  /** No lost wakeup: in every state of every run, a loop asleep with functions queued is about to
      be woken: some thread holds the function lock with its eventfd write still to come, that
      write is enabled, and after it the loop is no longer asleep. */
  lemma NoLostWakeup(states: seq<State>, steps: seq<Step>, i: nat) returns (tid: Tid)
    requires IsRun(states, steps) && i < |states|
    requires Asleep(states[i]) && states[i].funcs != []
    ensures tid in states[i].threads && states[i].threads[tid].Pushed? && states[i].lock == Some(tid)
    ensures Enabled(states[i], WriteAdd(tid)) && !Asleep(Next(states[i], WriteAdd(tid)))
  {
    RunsKeepInv(states, steps, i);
    tid :| tid in states[i].threads && states[i].threads[tid].Pushed?;
  }

  /** The loop asleep is due to wake no later than `t`. */
  predicate WakesBy(s: State, t: Timer)
    requires s.pc.Wait?
  {
    s.pc.read.Millis() + s.pc.timeout <= t.stamp.Millis()
  }

  /** No oversleep, for every run with any delays and any clock readings: the timeout of a loop
      asleep on a timer whose eventfd write is done comes from a timer `top`, and
      - when the difference of `top` and the clock is an `int`, the loop wakes by the timer if and
        only if `top` is not later in time, as it is whenever both compare in the order of time;
      - when the clock is more than 2^31 milliseconds past `top`, it oversleeps `top` itself. */
  lemma NoOversleep(states: seq<State>, steps: seq<Step>, i: nat, t: Timer)
    requires IsRun(states, steps) && i < |states|
    requires Asleep(states[i]) && t in states[i].timers && !WriteToCome(states[i], t)
    ensures var s := states[i];
            && s.pc.top.Some?
            && (var top := s.pc.top.value;
                var d := top.stamp.Millis() - s.pc.read.Millis();
                && NotAfter(top, t)
                && (BigEndian.IsInt32(d) ==> (WakesBy(s, t) <==> top.stamp.Millis() <= t.stamp.Millis()))
                && (InOrder(t.stamp, top.stamp) ==> top.stamp.Millis() <= t.stamp.Millis())
                && (d > INT_MAX ==> WakesBy(s, top))
                && (d < -0x8000_0000 ==> !WakesBy(s, top)))
  {
    RunsKeepInv(states, steps, i);
    var s := states[i];
    assert ComputedFor(s.pc, t);
    var top := s.pc.top.value;
    assert top.stamp.Minus(s.pc.read) == AsInt32(top.stamp.Millis() - s.pc.read.Millis());
  }

  /** No timer of the run was armed with a negative delay. */
  predicate NoNegativeDelay(steps: seq<Step>)
  {
    forall j :: 0 <= j < |steps| && steps[j].AddTimer? ==> steps[j].after >= 0
  }

  lemma {:induction false} StampsAreNormal(states: seq<State>, steps: seq<Step>, i: nat)
    requires IsRun(states, steps) && i < |states| && NoNegativeDelay(steps)
    ensures forall t :: t in states[i].timers ==> t.stamp.Normal()
    ensures states[i].pc.Wait? && states[i].pc.top.Some? ==> states[i].pc.top.value.stamp.Normal()
  {
    if i > 0 {
      StampsAreNormal(states, steps, i - 1);
      var s, step := states[i - 1], steps[i - 1];
      assert states[i] == Next(s, step);
      if step.AddTimer? {
        AfterMsMeaning(step.read, step.after);
      }
    }
  }

  /** Without negative delays, a loop asleep wakes by every queued timer, unless that timer's write
      is still to come (and then it is enabled) or the clock is more than 2^31 milliseconds past the
      earliest timer. */
  lemma NoOversleepInOrder(states: seq<State>, steps: seq<Step>, i: nat, t: Timer)
    requires IsRun(states, steps) && i < |states| && NoNegativeDelay(steps)
    requires Asleep(states[i]) && t in states[i].timers
    ensures var s := states[i];
            || WakesBy(s, t)
            || (exists tid :: tid in s.threads && s.threads[tid] == Armed(t) && Enabled(s, WriteTimer(tid)))
            || (s.pc.top.Some? && s.pc.top.value.stamp.Millis() - s.pc.read.Millis() < -0x8000_0000)
  {
    var s := states[i];
    if WriteToCome(s, t) {
      var tid :| tid in s.threads && s.threads[tid] == Armed(t);
      assert Enabled(s, WriteTimer(tid));
    } else {
      NoOversleep(states, steps, i, t);
      StampsAreNormal(states, steps, i);
      LessIsMillis(t.stamp, s.pc.top.value.stamp);
    }
  }

  /** Exactly when the computed timeout does not reach past the stamp it was computed from. */
  lemma TimeoutExactly(read: TimeStamp, t: Timer)
    ensures var d := t.stamp.Millis() - read.Millis();
            var timeout := Timeout(read, Some(t));
            timeout == 0 || read.Millis() + timeout <= t.stamp.Millis() <==> d >= -0x8000_0000 || AsInt32(d) <= 0
  {
    assert t.stamp.Minus(read) == AsInt32(t.stamp.Millis() - read.Millis());
  }

  /** The range is needed: with a clock reading 49 days past the earliest stamp the computed
      timeout is a second although the timer is overdue. */
  lemma RangeIsNeeded()
    ensures Timeout(TimeStamp(4294966, 296), Some(Timer(TimeStamp(0, 0), 7))) == 1000
  {
  }

  /** Once a call of `stop` has returned, the loop is not asleep, and at its next check it exits. */
  lemma StopEndsSleep(states: seq<State>, steps: seq<Step>, i: nat)
    requires IsRun(states, steps) && i < |states| && states[i].stopDone
    ensures !Asleep(states[i])
    ensures states[i].pc.Check? && LOOP !in states[i].threads ==> Next(states[i], LoopCheck).pc.Exited?
  {
    RunsKeepInv(states, steps, i);
  }

  /** Exactly-once FIFO: the functions run, then those taken, then those queued, are all additions
      in the order of the lock. */
  lemma FunctionsRunInOrder(states: seq<State>, steps: seq<Step>, i: nat)
    requires IsRun(states, steps) && i < |states|
    ensures var s := states[i]; s.executed + Batch(s.pc) + s.funcs == s.added
  {
    RunsKeepInv(states, steps, i);
  }

  /** Each armed timer is in exactly one of heap, batch and history of runs, so it runs at most
      once; and it runs only after a clock reading past its stamp. */
  lemma TimersRunOnce(states: seq<State>, steps: seq<Step>, i: nat)
    requires IsRun(states, steps) && i < |states|
    ensures var s := states[i];
            && s.armed == s.timers + multiset(Due(s.pc)) + TimersOf(s.fired)
            && forall j :: 0 <= j < |s.fired| ==> s.fired[j].t.stamp.Less(s.fired[j].clock)
  {
    RunsKeepInv(states, steps, i);
  }
}
