/** A round of the event loop does its work: behind every return of `epoll_wait` the loop swaps the
    function queue, runs what it took, drains the heap and runs what was due, before it checks again. */
module LoopRounds {
  import Bytes
  import opened TimeStamps
  import opened Timers
  import opened EventLoop

  /** The loop next checks its flag at `k`. */
  predicate NextCheck(states: seq<State>, j: nat, k: nat)
  {
    j < k < |states| && states[k].pc.Check? && forall x :: j < x < k ==> !states[x].pc.Check?
  }

  lemma LaterCheck(states: seq<State>, i: nat, j: nat, k: nat)
    requires NextCheck(states, i, k) && i <= j < k
    ensures NextCheck(states, j, k)
  {
  }

  /** The steps of other threads, and those that the loop thread takes inside a call. */
  predicate IsCall(step: Step)
  {
    || step.BeginAdd? || step.WriteAdd? || step.EndAdd? || step.AddTimer? || step.WriteTimer?
    || step.SetStop? || step.WriteStop?
  }

  function Firings(due: seq<Timer>, clock: TimeStamp): seq<Firing>
  {
    if due == [] then [] else [Firing(due[0], clock)] + Firings(due[1..], clock)
  }

  // ---------------------------------------------------------------- one step of each part

  /** Where each step leads the loop, and what it runs. */
  lemma StepAt(states: seq<State>, steps: seq<Step>, j: nat)
    requires IsRun(states, steps) && j < |steps|
    ensures var s, step, r := states[j], steps[j], states[j + 1];
            if IsCall(step) then r.pc == s.pc && r.executed == s.executed && r.fired == s.fired else
            match s.pc
            case Check => step.LoopCheck? && (if s.stop then r.pc.Exited? else r.pc.Compute?)
            case Compute => step.LoopCompute? && r.pc == Wait(step.read, step.top, Timeout(step.read, step.top))
            case Wait(_, _, _) => (step.LoopReturn? && r.pc.Handle?) || (step.LoopInterrupted? && r.pc.Check?)
            case Handle =>
              && r.executed == s.executed && r.fired == s.fired
              && ((step.LoopRead? && r.pc == s.pc) || (step.LoopHandled? && r.pc.Swap?))
            case Swap =>
              && step.LoopSwap? && r.pc == RunFuncs(s.funcs) && r.executed == s.executed && r.fired == s.fired
            case RunFuncs(batch) =>
              && r.fired == s.fired
              && (if batch == [] then step.LoopFuncsDone? && r.pc.Drain? && r.executed == s.executed
                  else step.LoopExec? && r.pc == RunFuncs(batch[1..]) && r.executed == s.executed + [batch[0]])
            case Drain =>
              && step.LoopDrain? && IsDue(s.timers, step.clock, step.due)
              && r.pc == RunTimers(step.due, step.clock) && r.executed == s.executed && r.fired == s.fired
            case RunTimers(due, clock) =>
              && r.executed == s.executed
              && (if due == [] then step.LoopTimersDone? && r.pc.Check? && r.fired == s.fired
                  else step.LoopFire? && r.pc == RunTimers(due[1..], clock)
                       && r.fired == s.fired + [Firing(due[0], clock)])
            case Exited => false
  {
  }

  /** What the calls of any thread do: a function is queued behind all others, a timer is armed for
      exactly its delay after the clock reading, `stop` sets the flag; every eventfd write leaves the
      eventfd readable.  A call runs nothing and takes nothing away. */
  lemma CallEffect(states: seq<State>, steps: seq<Step>, j: nat)
    requires IsRun(states, steps) && j < |steps| && IsCall(steps[j])
    ensures var s, r := states[j], states[j + 1];
            match steps[j]
            case BeginAdd(tid, f) =>
              && r.funcs == s.funcs + [f] && r.added == s.added + [f]
              && r.timers == s.timers && r.stop == s.stop && r.lock.Some?
            case AddTimer(tid, read, after, func) =>
              && (exists t: Timer :: ArmedFor(s, r, t) && t.func == func && t.stamp.Millis() == read.Millis() + after)
              && r.funcs == s.funcs && r.stop == s.stop
            case SetStop(tid) => r.stop && r.funcs == s.funcs && r.timers == s.timers
            case EndAdd(tid) =>
              r.lock.None? && r.funcs == s.funcs && r.timers == s.timers && r.stop == s.stop && r.efd == s.efd
            case _ => r.efd > 0 && r.funcs == s.funcs && r.timers == s.timers && r.stop == s.stop && r.lock == s.lock
  {
    var s, r := states[j], states[j + 1];
    match steps[j]
    case AddTimer(tid, read, after, func) =>
      AfterMsMeaning(read, after);
      assert ArmedFor(s, r, Timer(AfterMs(read, after), func));
    case _ =>
  }

  predicate ArmedFor(s: State, r: State, t: Timer)
  {
    r.timers == s.timers + multiset{t} && r.armed == s.armed + multiset{t}
  }

  // ---------------------------------------------------------------- the parts of a round

  lemma {:induction false} HandlePart(states: seq<State>, steps: seq<Step>, j: nat, k: nat) returns (m: nat)
    requires IsRun(states, steps) && NextCheck(states, j, k) && (states[j].pc.Handle? || states[j].pc.Swap?)
    ensures j <= m && m + 1 < k && steps[m].LoopSwap? && states[m + 1].pc == RunFuncs(states[m].funcs)
    ensures states[m].executed == states[m + 1].executed == states[j].executed
    decreases k - j
  {
    StepAt(states, steps, j);
    assert |states| == |steps| + 1;
    hide IsRun;
    if steps[j].LoopSwap? {
      m := j;
    } else {
      LaterCheck(states, j, j + 1, k);
      hide NextCheck;
      m := HandlePart(states, steps, j + 1, k);
    }
  }

  lemma {:induction false} FuncsPart(states: seq<State>, steps: seq<Step>, j: nat, k: nat) returns (n: nat)
    requires IsRun(states, steps) && NextCheck(states, j, k) && (states[j].pc.RunFuncs? || states[j].pc.Drain?)
    ensures j <= n && n + 1 < k && steps[n].LoopDrain? && IsDue(states[n].timers, steps[n].clock, steps[n].due)
    ensures states[n + 1].pc == RunTimers(steps[n].due, steps[n].clock) && states[n + 1].fired == states[n].fired
    ensures states[n + 1].executed == states[j].executed + Batch(states[j].pc)
    decreases k - j
  {
    StepAt(states, steps, j);
    assert |states| == |steps| + 1;
    hide IsRun;
    if steps[j].LoopDrain? {
      n := j;
      assert states[j].executed + [] == states[j].executed;
    } else {
      LaterCheck(states, j, j + 1, k);
      hide NextCheck;
      n := FuncsPart(states, steps, j + 1, k);
      FirstRun(states[j].executed, Batch(states[j].pc));
    }
  }

  lemma FirstRun(executed: seq<Func>, batch: seq<Func>)
    ensures batch != [] ==> executed + batch == executed + [batch[0]] + batch[1..]
  {
  }

  lemma {:induction false} TimersPart(states: seq<State>, steps: seq<Step>, j: nat, k: nat)
    requires IsRun(states, steps) && NextCheck(states, j, k) && states[j].pc.RunTimers?
    ensures states[k].executed == states[j].executed
    ensures states[k].fired == states[j].fired + Firings(states[j].pc.due, states[j].pc.clock)
    decreases k - j
  {
    StepAt(states, steps, j);
    assert |states| == |steps| + 1;
    hide IsRun;
    if steps[j].LoopTimersDone? {
      assert j + 1 == k;
      assert states[j].fired + [] == states[j].fired;
    } else {
      LaterCheck(states, j, j + 1, k);
      hide NextCheck;
      TimersPart(states, steps, j + 1, k);
      var due, clock, fired := states[j].pc.due, states[j].pc.clock, states[j].fired;
      if steps[j].LoopFire? {
        assert fired + [Firing(due[0], clock)] + Firings(due[1..], clock) == fired + Firings(due, clock);
      }
    }
  }

  lemma {:induction false} TimersOfFirings(fired: seq<Firing>, due: seq<Timer>, clock: TimeStamp)
    ensures TimersOf(fired + Firings(due, clock)) == TimersOf(fired) + multiset(due)
    decreases |due|
  {
    hide TimersOf;
    if due == [] {
      assert fired + [] == fired;
    } else {
      TimersOfMore(fired, Firing(due[0], clock));
      TimersOfFirings(fired + [Firing(due[0], clock)], due[1..], clock);
      assert fired + Firings(due, clock) == fired + [Firing(due[0], clock)] + Firings(due[1..], clock);
      assert due == [due[0]] + due[1..];
    }
  }

  /** In the round from step `i` to the check at `k`, step `m` takes the queue and step `n` drains the
      heap; at the check exactly the functions taken have run, in order, and exactly the due timers have
      fired: every timer queued at the drain with a stamp before its clock, and no other. */
  ghost predicate RoundDone(states: seq<State>, steps: seq<Step>, i: nat, m: nat, n: nat, k: nat)
  {
    && i < m < n && n + 1 < k < |states| && k <= |steps| && steps[m].LoopSwap? && steps[n].LoopDrain?
    && states[k].executed == states[m].executed + states[m].funcs
    && states[k].fired == states[n].fired + Firings(steps[n].due, steps[n].clock)
    && TimersOf(states[k].fired) == TimersOf(states[n].fired) + multiset(steps[n].due)
    && (forall t :: t in states[n].timers && t.stamp.Less(steps[n].clock) ==> t in TimersOf(states[k].fired))
    && (forall t :: t in steps[n].due ==> t.stamp.Less(steps[n].clock))
  }

  /** Every round works, in every run. */
  lemma RoundWorks(states: seq<State>, steps: seq<Step>, i: nat, k: nat) returns (m: nat, n: nat)
    requires IsRun(states, steps) && i < |steps| && steps[i].LoopReturn? && NextCheck(states, i, k)
    ensures RoundDone(states, steps, i, m, n, k)
  {
    hide NextCheck;
    assert |states| == |steps| + 1;
    hide Firings;
    hide TimersOf;
    RoundStarts(states, steps, i, k);
    hide IsRun;
    LaterCheck(states, i, i + 1, k);
    m := HandlePart(states, steps, i + 1, k);
    LaterCheck(states, i, m + 1, k);
    n := FuncsPart(states, steps, m + 1, k);
    LaterCheck(states, i, n + 1, k);
    TimersPart(states, steps, n + 1, k);
    TimersOfFirings(states[n].fired, steps[n].due, steps[n].clock);
    assert n + 1 < k < |states| by { CheckIsState(states, i, k); }
    DueAreTaken(states[n].timers, steps[n].clock, steps[n].due);
    hide IsDue;
  }

  lemma CheckIsState(states: seq<State>, i: nat, k: nat)
    requires NextCheck(states, i, k)
    ensures k < |states|
  {
  }

  lemma RoundStarts(states: seq<State>, steps: seq<Step>, i: nat, k: nat)
    requires IsRun(states, steps) && i < |steps| && steps[i].LoopReturn? && NextCheck(states, i, k)
    ensures i + 1 < k && states[i + 1].pc.Handle?
  {
    StepAt(states, steps, i);
    hide IsRun;
  }

  lemma DueAreTaken(timers: multiset<Timer>, clock: TimeStamp, due: seq<Timer>)
    requires IsDue(timers, clock, due)
    ensures forall t :: t in timers && t.stamp.Less(clock) ==> t in multiset(due)
    ensures forall t :: t in due ==> t.stamp.Less(clock)
  {
    forall t | t in timers && t.stamp.Less(clock) ensures t in multiset(due) {
      assert t !in timers - multiset(due);
    }
  }

  /** The loop leaves only after a call of `stop` has set the flag. */
  lemma ExitsOnlyByStop(states: seq<State>, steps: seq<Step>, i: nat)
    requires IsRun(states, steps) && i < |states| && states[i].pc.Exited?
    ensures states[i].stop && exists j :: 0 <= j < i && steps[j].SetStop?
  {
    StopIsSet(states, steps, i);
  }

  lemma {:induction false} StopIsSet(states: seq<State>, steps: seq<Step>, i: nat)
    requires IsRun(states, steps) && i < |states|
    ensures states[i].pc.Exited? ==> states[i].stop
    ensures states[i].stop <==> exists j :: 0 <= j < i && steps[j].SetStop?
  {
    if i > 0 {
      StopIsSet(states, steps, i - 1);
      assert states[i] == Next(states[i - 1], steps[i - 1]);
      assert steps[i - 1].SetStop? ==> states[i].stop;
    }
  }

  // ---------------------------------------------------------------- the loop is never stuck

  lemma StampsAreOrdered(a: TimeStamp, b: TimeStamp, c: TimeStamp)
    ensures !a.Less(b) && !b.Less(c) ==> !a.Less(c)
    ensures a.Less(b) || b.Less(a) || a == b
  {
  }

  /** A heap that is not empty has a top. */
  lemma {:induction false} TopExists(timers: multiset<Timer>) returns (top: Timer)
    requires timers != multiset{}
    ensures IsTop(timers, Some(top))
    decreases |timers|
  {
    var t :| t in timers;
    var rest := timers - multiset{t};
    if rest == multiset{} {
      top := t;
      assert timers == multiset{t};
    } else {
      var u := TopExists(rest);
      top := if u.stamp.Less(t.stamp) then u else t;
      forall x | x in timers ensures NotAfter(top, x) {
        assert x == t || x in rest;
        StampsAreOrdered(x.stamp, u.stamp, t.stamp);
      }
    }
  }

  /** Whatever the clock says, a drain is possible. */
  lemma {:induction false} DueExists(timers: multiset<Timer>, clock: TimeStamp) returns (due: seq<Timer>)
    ensures IsDue(timers, clock, due)
    decreases |timers|
  {
    if timers == multiset{} {
      due := [];
    } else {
      var top := TopExists(timers);
      if !top.stamp.Less(clock) {
        due := [];
        forall t | t in timers ensures !t.stamp.Less(clock) {
          StampsAreOrdered(t.stamp, top.stamp, clock);
        }
      } else {
        var rest := DueExists(timers - multiset{top}, clock);
        due := [top] + rest;
        DueWithTop(timers, clock, top, rest);
      }
    }
  }

  lemma DueWithTop(timers: multiset<Timer>, clock: TimeStamp, top: Timer, rest: seq<Timer>)
    requires IsTop(timers, Some(top)) && top.stamp.Less(clock) && IsDue(timers - multiset{top}, clock, rest)
    ensures IsDue(timers, clock, [top] + rest)
  {
    var due := [top] + rest;
    assert multiset(due) == multiset{top} + multiset(rest);
    assert timers - multiset(due) == timers - multiset{top} - multiset(rest);
    forall t | t in rest ensures t in timers {
      assert t in multiset(rest);
    }
  }

  /** In every state of every run some step can be taken that does not begin another call, unless the
      loop has left: the loop goes on, or the thread that it waits for does. */
  lemma Progress(states: seq<State>, steps: seq<Step>, i: nat, clock: TimeStamp) returns (step: Step)
    requires IsRun(states, steps) && i < |states| && !states[i].pc.Exited? && clock.Normal()
    ensures Enabled(states[i], step) && !step.BeginAdd? && !step.AddTimer? && !step.SetStop?
  {
    RunsKeepInv(states, steps, i);
    var s := states[i];
    if LOOP in s.threads {
      step := match s.threads[LOOP]
              case Pushed(_) => WriteAdd(LOOP) case Woke => EndAdd(LOOP)
              case Armed(_) => WriteTimer(LOOP) case Flagged => WriteStop(LOOP);
    } else {
      step := LoopStep(s, clock);
    }
  }

  lemma LoopStep(s: State, clock: TimeStamp) returns (step: Step)
    requires Locked(s) && !s.pc.Exited? && clock.Normal() && LOOP !in s.threads
    ensures Enabled(s, step) && !step.BeginAdd? && !step.AddTimer? && !step.SetStop?
  {
    match s.pc
    case Check => step := LoopCheck;
    case Compute =>
      if s.timers == multiset{} {
        step := LoopCompute(clock, None);
      } else {
        var top := TopExists(s.timers);
        step := LoopCompute(clock, Some(top));
      }
    case Wait(_, _, _) => step := LoopReturn;
    case Handle => step := LoopHandled;
    case Swap =>
      if s.lock.None? {
        step := LoopSwap;
      } else {
        var tid := s.lock.value;
        assert tid in s.threads && (s.threads[tid].Pushed? || s.threads[tid].Woke?);
        step := if s.threads[tid].Pushed? then WriteAdd(tid) else EndAdd(tid);
      }
    case RunFuncs(batch) => step := if batch == [] then LoopFuncsDone else LoopExec;
    case Drain =>
      var due := DueExists(s.timers, clock);
      step := LoopDrain(clock, due);
    case RunTimers(due, _) => step := if due == [] then LoopTimersDone else LoopFire;
  }

  // ---------------------------------------------------------------- the timeout

  /** Without timers the loop sleeps 256 ms; otherwise, while the difference is an `int`, up to exactly
      the earliest stamp, or not at all if that has passed. */
  lemma TimeoutMeaning(read: TimeStamp, t: Timer)
    ensures Timeout(read, None) == 256
    ensures var d := t.stamp.Millis() - read.Millis();
            -0x8000_0000 <= d <= 0x7fff_ffff ==>
              read.Millis() + Timeout(read, Some(t)) == if d > 0 then t.stamp.Millis() else read.Millis()
  {
    assert t.stamp.Minus(read) == Bytes.AsInt32(t.stamp.Millis() - read.Millis());
  }
}
