/** A round of the server's loop does all its work: every reported event is handled, every queued
    function run and every due timer fired, each once and in order, before the loop waits again. */
module ServerRounds {
  import opened ServerSpec
  import opened ServerInv
  import opened ServerRuns
  import opened ServerEffects
  import BufferSpec
  import Lanes

  // ---------------------------------------------------------------- what the steps have done

  function First<T>(s: seq<T>): seq<T> { if s == [] then [] else [s[0]] }

  lemma FirstAndRest<T>(s: seq<T>)
    requires s != []
    ensures First(s) + s[1..] == s
  {
  }

  /** The events handled by the steps from `i` on, up to `j`. */
  ghost function HandledEvents(states: seq<State>, steps: seq<Step>, i: nat, j: nat): seq<Event>
    requires j <= |steps| < |states|
    decreases j - i
  {
    if i >= j then []
    else (if steps[i].HandleNext? && states[i].phase.Handling? then First(states[i].phase.events) else [])
         + HandledEvents(states, steps, i + 1, j)
  }

  /** The connections whose `update_channel` ran. */
  ghost function RanFuncs(states: seq<State>, steps: seq<Step>, i: nat, j: nat): seq<Key>
    requires j <= |steps| < |states|
    decreases j - i
  {
    if i >= j then []
    else (if steps[i].NextFunc? && states[i].phase.RunFuncs? then First(states[i].phase.batch) else [])
         + RanFuncs(states, steps, i + 1, j)
  }

  /** The timers whose callback ran. */
  ghost function FiredTimers(states: seq<State>, steps: seq<Step>, i: nat, j: nat): seq<TimerRec>
    requires j <= |steps| < |states|
    decreases j - i
  {
    if i >= j then []
    else (if steps[i].NextTimer? && states[i].phase.RunTimers? then First(states[i].phase.due) else [])
         + FiredTimers(states, steps, i + 1, j)
  }

  /** The loop next waits at `k`. */
  predicate NextWait(states: seq<State>, j: nat, k: nat)
  {
    j < k < |states| && states[k].phase.Waiting? && forall x :: j < x < k ==> !states[x].phase.Waiting?
  }

  lemma LaterWait(states: seq<State>, i: nat, j: nat, k: nat)
    requires NextWait(states, i, k) && i <= j < k
    ensures NextWait(states, j, k)
  {
  }

  // ---------------------------------------------------------------- one step of each part

  lemma HandlePhase(cfg: Config, s: State, o: Outcome, out: Output)
    requires Inv(cfg, s) && Enabled(cfg, s, HandleNext(o, out))
    ensures var r := Next(cfg, s, HandleNext(o, out)); r.phase.Down? || r.phase == Handling(s.phase.events[1..])
  {
    if ReadEvent(s) {
      ReadEffect(cfg, s, o, out);
    } else if WriteEvent(s) {
      WriteEffect(cfg, s, o, out);
    } else {
      OtherEffect(cfg, s, o, out);
    }
    hide Inv;
    hide Next;
  }

  lemma FuncPhase(cfg: Config, s: State)
    requires Enabled(cfg, s, NextFunc)
    ensures Next(cfg, s, NextFunc).phase == RunFuncs(s.phase.batch[1..])
  {
  }

  lemma TimerPhase(cfg: Config, s: State)
    requires Enabled(cfg, s, NextTimer)
    ensures Next(cfg, s, NextTimer).phase == RunTimers(s.phase.due[1..])
  {
    TimeoutPhase(s.(phase := RunTimers(s.phase.due[1..])), s.phase.due[0]);
    hide Timeout;
  }

  lemma TimeoutPhase(s: State, rec: TimerRec)
    ensures Timeout(s, rec).phase == s.phase
  {
    if rec.key.addr in s.mem {
      var s1 := UpdateChannel(SetEvent(s, rec.key.addr, NoEvent), rec.key.addr);
      assert s1.phase == s.phase;
    }
  }

  /** The phase in which each step is taken, and the one it leads to. */
  lemma PhaseOf(cfg: Config, s: State, step: Step)
    requires Inv(cfg, s) && Enabled(cfg, s, step)
    ensures var r := Next(cfg, s, step).phase;
            match s.phase
            case Waiting => step.EpollReturns? && r == Handling(step.events)
            case Handling(events) =>
              || (step.Accept? && r == s.phase)
              || (step.HandleNext? && events != [] && (r.Down? || r == Handling(events[1..])))
              || (step.SwapFuncs? && events == [] && r == RunFuncs(s.funcs))
            case RunFuncs(batch) =>
              || (step.NextFunc? && batch != [] && r == RunFuncs(batch[1..]))
              || (step.DrainTimers? && batch == [] && r == RunTimers(step.due))
            case RunTimers(due) =>
              || (step.NextTimer? && due != [] && r == RunTimers(due[1..]))
              || (step.EndRound? && due == [] && r == Waiting)
            case Down => false
  {
    match step
    case HandleNext(o, out) => HandlePhase(cfg, s, o, out);
    case NextFunc => FuncPhase(cfg, s);
    case NextTimer => TimerPhase(cfg, s);
    case Accept(fd, a, ts) =>
      AcceptTurn(cfg, s, fd, a, ts);
      AcceptedConn(cfg, s, fd, a, ts);
      hide NewConnection;
    case _ =>
  }

  lemma PhaseAt(cfg: Config, states: seq<State>, steps: seq<Step>, j: nat)
    requires IsRun(cfg, states, steps) && j < |steps|
    ensures var step, r := steps[j], states[j + 1].phase;
            match states[j].phase
            case Waiting => step.EpollReturns? && r == Handling(step.events)
            case Handling(events) =>
              || (step.Accept? && r == Handling(events))
              || (step.HandleNext? && events != [] && (r.Down? || r == Handling(events[1..])))
              || (step.SwapFuncs? && events == [] && r == RunFuncs(states[j].funcs))
            case RunFuncs(batch) =>
              || (step.NextFunc? && batch != [] && r == RunFuncs(batch[1..]))
              || (step.DrainTimers? && batch == [] && r == RunTimers(step.due))
            case RunTimers(due) =>
              || (step.NextTimer? && due != [] && r == RunTimers(due[1..]))
              || (step.EndRound? && due == [] && r == Waiting)
            case Down => false
  {
    StepOf(cfg, states, steps, j);
    PhaseOf(cfg, states[j], steps[j]);
    hide Inv;
    hide Next;
    hide Enabled;
    hide IsRun;
  }

  /** A process that has ended takes no step, so it does not wait again. */
  lemma NotDown(cfg: Config, states: seq<State>, steps: seq<Step>, j: nat, k: nat)
    requires IsRun(cfg, states, steps) && NextWait(states, j, k)
    ensures !states[j + 1].phase.Down?
  {
    if j + 1 < k {
      PhaseAt(cfg, states, steps, j + 1);
    }
  }

  // ---------------------------------------------------------------- the three parts of a round

  lemma {:induction false} EventsPart(cfg: Config, states: seq<State>, steps: seq<Step>, j: nat, k: nat)
    returns (m: nat)
    requires IsRun(cfg, states, steps) && NextWait(states, j, k) && states[j].phase.Handling?
    ensures j <= m && m + 1 < k && steps[m].SwapFuncs?
    ensures HandledEvents(states, steps, j, m) == states[j].phase.events
    ensures states[m + 1].phase == RunFuncs(states[m].funcs)
    decreases k - j
  {
    PhaseAt(cfg, states, steps, j);
    NotDown(cfg, states, steps, j, k);
    assert states[j + 1].phase.Waiting? ==> j + 1 == k;
    assert |states| == |steps| + 1;
    hide IsRun;
    if steps[j].SwapFuncs? {
      m := j;
    } else {
      LaterWait(states, j, j + 1, k);
      hide NextWait;
      m := EventsPart(cfg, states, steps, j + 1, k);
      if steps[j].HandleNext? {
        FirstAndRest(states[j].phase.events);
      }
    }
  }

  lemma {:induction false} FuncsPart(cfg: Config, states: seq<State>, steps: seq<Step>, j: nat, k: nat) returns (n: nat)
    requires IsRun(cfg, states, steps) && NextWait(states, j, k) && states[j].phase.RunFuncs?
    ensures j <= n && n + 1 < k && steps[n].DrainTimers?
    ensures RanFuncs(states, steps, j, n) == states[j].phase.batch
    ensures states[n + 1].phase == RunTimers(steps[n].due)
    decreases k - j
  {
    PhaseAt(cfg, states, steps, j);
    assert |states| == |steps| + 1;
    hide IsRun;
    if steps[j].DrainTimers? {
      n := j;
    } else {
      LaterWait(states, j, j + 1, k);
      hide NextWait;
      n := FuncsPart(cfg, states, steps, j + 1, k);
      FirstAndRest(states[j].phase.batch);
    }
  }

  lemma {:induction false} TimersPart(cfg: Config, states: seq<State>, steps: seq<Step>, j: nat, k: nat)
    requires IsRun(cfg, states, steps) && NextWait(states, j, k) && states[j].phase.RunTimers?
    ensures FiredTimers(states, steps, j, k) == states[j].phase.due
    decreases k - j
  {
    PhaseAt(cfg, states, steps, j);
    assert |states| == |steps| + 1;
    hide IsRun;
    if steps[j].NextTimer? {
      LaterWait(states, j, j + 1, k);
      hide NextWait;
      TimersPart(cfg, states, steps, j + 1, k);
      FirstAndRest(states[j].phase.due);
    } else {
      assert j + 1 == k;
    }
  }

  /** Between a return of `epoll_wait` and the next wait, the loop handles exactly the reported events,
      takes the queued functions and runs exactly those, takes timers and fires exactly those, each in
      order and in this order. */
  lemma RoundWorks(cfg: Config, states: seq<State>, steps: seq<Step>, i: nat, k: nat) returns (m: nat, n: nat)
    requires IsRun(cfg, states, steps) && i < |steps| && steps[i].EpollReturns? && NextWait(states, i, k)
    ensures RoundDone(states, steps, i, m, n, k)
  {
    hide NextWait;
    hide HandledEvents;
    hide RanFuncs;
    hide FiredTimers;
    assert |states| == |steps| + 1;
    hide IsRun;
    RoundStarts(cfg, states, steps, i, k);
    LaterWait(states, i, i + 1, k);
    m := EventsPart(cfg, states, steps, i + 1, k);
    LaterWait(states, i, m + 1, k);
    n := FuncsAndTimers(cfg, states, steps, m + 1, k);
  }

  /** Step `m` takes the functions, step `n` the timers, and each part of the round did its work. */
  ghost predicate RoundDone(states: seq<State>, steps: seq<Step>, i: nat, m: nat, n: nat, k: nat)
  {
    && i < m < n && n + 1 < k <= |steps| < |states|
    && steps[i].EpollReturns? && steps[m].SwapFuncs? && steps[n].DrainTimers?
    && HandledEvents(states, steps, i + 1, m) == steps[i].events
    && RanFuncs(states, steps, m + 1, n) == states[m].funcs
    && FiredTimers(states, steps, n + 1, k) == steps[n].due
  }

  lemma FuncsAndTimers(cfg: Config, states: seq<State>, steps: seq<Step>, j: nat, k: nat) returns (n: nat)
    requires IsRun(cfg, states, steps) && NextWait(states, j, k) && states[j].phase.RunFuncs?
    ensures j <= n && n + 1 < k <= |steps| < |states| && steps[n].DrainTimers?
    ensures RanFuncs(states, steps, j, n) == states[j].phase.batch
    ensures FiredTimers(states, steps, n + 1, k) == steps[n].due
  {
    assert |states| == |steps| + 1;
    hide IsRun;
    hide RanFuncs;
    hide FiredTimers;
    n := FuncsPart(cfg, states, steps, j, k);
    LaterWait(states, j, n + 1, k);
    hide NextWait;
    TimersPart(cfg, states, steps, n + 1, k);
  }

  lemma RoundStarts(cfg: Config, states: seq<State>, steps: seq<Step>, i: nat, k: nat)
    requires IsRun(cfg, states, steps) && i < |steps| && steps[i].EpollReturns? && NextWait(states, i, k)
    ensures i + 1 < k && states[i + 1].phase == Handling(steps[i].events)
  {
    PhaseAt(cfg, states, steps, i);
    hide IsRun;
  }

  /** The loop never gets stuck: in every state of every run some step can be taken, unless the process
      has ended. */
  lemma Progress(cfg: Config, states: seq<State>, steps: seq<Step>, i: nat) returns (step: Step)
    requires IsRun(cfg, states, steps) && i < |states| && !states[i].phase.Down?
    ensures Enabled(cfg, states[i], step)
  {
    var s := states[i];
    match s.phase
    case Waiting => step := EpollReturns([]);
    case Handling(events) =>
      step := if events == [] then SwapFuncs
              else HandleNext(Eof, Output(BufferSpec.Storage([], 0, 0, [], 0), Lanes.WouldBlock, Lanes.WouldBlock));
    case RunFuncs(batch) => step := if batch == [] then DrainTimers([]) else NextFunc;
    case RunTimers(due) => step := if due == [] then EndRound else NextTimer;
  }
}
