/** What holds in every run of the server. */
module ServerRuns {
  import opened ServerSpec
  import opened ServerInv

  /** A run from the empty server: any events, accepts, outcomes, drains, in any order the loop allows. */
  ghost predicate IsRun(cfg: Config, states: seq<State>, steps: seq<Step>)
  {
    && |states| == |steps| + 1
    && states[0] == INIT
    && forall i :: 0 <= i < |steps| ==>
         Enabled(cfg, states[i], steps[i]) && states[i + 1] == Next(cfg, states[i], steps[i])
  }

  lemma StepKeepsInv(cfg: Config, s: State, step: Step)
    requires Inv(cfg, s) && Enabled(cfg, s, step)
    ensures Inv(cfg, Next(cfg, s, step))
  {
    hide Inv;
    match step
    case EpollReturns(events) => ReturnKeeps(cfg, s, events);
    case Accept(fd, a, ts) => AcceptKeeps(cfg, s, fd, a, ts);
    case HandleNext(o, out) => DispatchKeeps(cfg, s, o, out.Sent());
    case SwapFuncs => SwapKeeps(cfg, s);
    case NextFunc => FuncKeeps(cfg, s);
    case DrainTimers(due) => DrainKeeps(cfg, s, due);
    case NextTimer => TimerKeeps(cfg, s);
    case EndRound => RoundKeeps(cfg, s);
  }

  /** Every state of every run meets all invariants. */
  lemma {:induction false} RunsKeepInv(cfg: Config, states: seq<State>, steps: seq<Step>, i: nat)
    requires IsRun(cfg, states, steps) && i < |states|
    ensures Inv(cfg, states[i])
  {
    hide Next;
    hide Enabled;
    if i > 0 {
      hide Inv;
      RunsKeepInv(cfg, states, steps, i - 1);
      var s, step := states[i - 1], steps[i - 1];
      assert Enabled(cfg, s, step) && states[i] == Next(cfg, s, step);
      StepKeepsInv(cfg, s, step);
    } else {
      assert Inv(cfg, INIT);
    }
  }

  /** Life-cycle safety: no event, queued `update_channel` or effective timer ever acts on a
      connection that is not allocated (`fault` stays false), the channel table holds exactly the
      allocated connections, and each identity ever used is either live or closed, once. */
  lemma LifeCycleSafety(cfg: Config, states: seq<State>, steps: seq<Step>, i: nat)
    requires IsRun(cfg, states, steps) && i < |states|
    ensures var s := states[i];
            && !s.fault
            && s.channels.Keys == s.mem.Keys
            && (forall a :: a in s.mem ==> s.channels[a] == s.mem[a].ts)
            && (forall k :: k in s.used ==> (Live(s, k) <==> k !in s.closed))
            && (forall m, n :: 0 <= m < n < |s.closed| ==> s.closed[m] != s.closed[n])
  {
    RunsKeepInv(cfg, states, steps, i);
  }

  /** Epoll mirror: `_sevent` equals the mask in the kernel for every allocated connection, the
      kernel knows no other descriptor, and a connection registered for EPOLLOUT has a context
      with its response packed.  (That every ADD, MOD and DEL was legal is `!fault`.) */
  lemma EpollMirror(cfg: Config, states: seq<State>, steps: seq<Step>, i: nat)
    requires IsRun(cfg, states, steps) && i < |states|
    ensures var s := states[i];
            && !s.fault
            && (forall a :: a in s.mem ==> s.mem[a].fd in s.kernel && s.kernel[s.mem[a].fd] == s.mem[a].sevent)
            && (forall f :: f in s.kernel ==> exists a :: a in s.mem && s.mem[a].fd == f)
            && (forall a :: a in s.mem && s.kernel[s.mem[a].fd].EpollOut? ==> s.mem[a].ctx.Responding?)
  {
    RunsKeepInv(cfg, states, steps, i);
  }

  /** A queued `update_channel` acts on the connection that queued it, even though it is bound to
      an address only. */
  lemma QueuedUpdateIsForItsConnection(cfg: Config, states: seq<State>, steps: seq<Step>, i: nat)
    requires IsRun(cfg, states, steps) && i < |steps| && steps[i].NextFunc?
    ensures var s := states[i];
            var k := s.phase.batch[0];
            && Live(s, k) && Queued(s.mem[k.addr])
            && k.addr in states[i + 1].mem && Writing(states[i + 1].mem[k.addr])
  {
    RunsKeepInv(cfg, states, steps, i);
    var s := states[i];
    assert Enabled(cfg, s, NextFunc) && states[i + 1] == Next(cfg, s, NextFunc);
    hide Inv;
    hide IsRun;
    FuncKeeps(cfg, s);
    FuncFacts(cfg, s);
    FuncSwitches(cfg, s);
  }

  /** The update of a queued connection is a legal MOD to writing. */
  lemma FuncSwitches(cfg: Config, s: State)
    requires Inv(cfg, s) && Enabled(cfg, s, NextFunc)
    ensures var a := s.phase.batch[0].addr;
            var r := Next(cfg, s, NextFunc);
            a in r.mem && Writing(r.mem[a])
  {
    FuncFacts(cfg, s);
    About(cfg, s, s.phase.batch[0].addr);
    hide Inv;
    var a := s.phase.batch[0].addr;
    var s1 := s.(phase := RunFuncs(s.phase.batch[1..]));
    assert Next(cfg, s, NextFunc) == UpdateChannel(s1, a);
    hide Next;
    hide Enabled;
    UpdateSwitches(s1, a);
  }

  lemma UpdateSwitches(s: State, a: Addr)
    requires a in s.mem && Queued(s.mem[a]) && s.mem[a].fd in s.kernel
    ensures var r := UpdateChannel(s, a); a in r.mem && Writing(r.mem[a])
  {
  }

  /** Timer generations, for every configuration: a live connection for which a timer was ever armed
      has exactly one pending timer whose id is its `timer_id`, in the heap or in the batch and not
      in both, and every other pending timer of it has a smaller id; a live connection without such
      a timer has none pending.  With the read timeout on, every live connection has one. */
  lemma ExactlyOneCurrentTimer(cfg: Config, states: seq<State>, steps: seq<Step>, i: nat, a: Addr)
    requires IsRun(cfg, states, steps) && i < |states| && a in states[i].mem
    ensures var s := states[i];
            var k, id := Key(a, s.mem[a].ts), s.mem[a].timerId;
            && (id > 0 ==> (TimerRec(k, id) in s.timers <==> TimerRec(k, id) !in Due(s)))
            && (forall r :: r in Pending(s) && r.key == k ==> 1 <= r.id <= id)
            && (id > 0 <==> exists j :: 0 <= j < |s.log| && s.log[j].key == k)
            && (cfg.readTimeout ==> id > 0)
  {
    RunsKeepInv(cfg, states, steps, i);
    CurrentTimer(cfg, states[i], a);
  }

  lemma CurrentTimer(cfg: Config, s: State, a: Addr)
    requires Inv(cfg, s) && a in s.mem
    ensures var k, id := Key(a, s.mem[a].ts), s.mem[a].timerId;
            && (id > 0 ==> (TimerRec(k, id) in s.timers <==> TimerRec(k, id) !in Due(s)))
            && (forall r :: r in Pending(s) && r.key == k ==> 1 <= r.id <= id)
            && (id > 0 <==> exists j :: 0 <= j < |s.log| && s.log[j].key == k)
            && (cfg.readTimeout ==> id > 0)
  {
    assert Generations(cfg, s) && Logged(s);
    hide Inv;
    var k, id := Key(a, s.mem[a].ts), s.mem[a].timerId;
    var rec := TimerRec(k, id);
    assert Live(s, k);
    if id > 0 {
      assert rec in Pending(s);
      if rec in Due(s) {
        var j :| 0 <= j < |Due(s)| && Due(s)[j] == rec;
      }
    }
    hide Generations;
    ArmedIsLogged(s, a);
    hide Logged;
  }

  lemma ArmedIsLogged(s: State, a: Addr)
    requires Logged(s) && a in s.mem
    ensures var k, id := Key(a, s.mem[a].ts), s.mem[a].timerId;
            id > 0 <==> exists j :: 0 <= j < |s.log| && s.log[j].key == k
  {
    var k, id := Key(a, s.mem[a].ts), s.mem[a].timerId;
    if id > 0 {
      assert TimerRec(k, id) in s.log;
      var j :| 0 <= j < |s.log| && s.log[j] == TimerRec(k, id);
      assert s.log[j].key == k;
    }
    if j :| 0 <= j < |s.log| && s.log[j].key == k {
      assert Live(s, k);
      assert 1 <= s.log[j].id <= id;
    }
  }

  /** A firing timer closes its connection exactly when the connection is live and no timer was
      armed for it after this one; otherwise it changes nothing but the batch. */
  lemma TimerClosesIffLast(cfg: Config, states: seq<State>, steps: seq<Step>, i: nat) returns (n: nat)
    requires IsRun(cfg, states, steps) && i < |steps| && steps[i].NextTimer?
    ensures var s, r := states[i], states[i + 1];
            var rec := s.phase.due[0];
            && n < |s.log| && s.log[n] == rec
            && (if Live(s, rec.key) && forall j :: n < j < |s.log| ==> s.log[j].key != rec.key
                then !Live(r, rec.key) && r == Removed(s, rec.key.addr).(phase := r.phase)
                else r == s.(phase := r.phase))
  {
    RunsKeepInv(cfg, states, steps, i);
    var s := states[i];
    var rec := s.phase.due[0];
    TimerKeeps(cfg, s);
    assert states[i + 1] == Next(cfg, s, NextTimer);
    n := LogIndex(cfg, s, rec);
    hide Inv;
  }

  lemma LogIndex(cfg: Config, s: State, rec: TimerRec) returns (n: nat)
    requires Inv(cfg, s) && rec in Due(s)
    ensures n < |s.log| && s.log[n] == rec
    ensures Live(s, rec.key) ==>
              (s.mem[rec.key.addr].timerId == rec.id <==> forall j :: n < j < |s.log| ==> s.log[j].key != rec.key)
  {
    assert rec in Pending(s);
    assert Logged(s) && Generations(cfg, s);
    hide Inv;
    n :| 0 <= n < |s.log| && s.log[n] == rec;
    if Live(s, rec.key) {
      hide Generations;
      LastInLog(s, n, rec);
    }
  }

  lemma LastInLog(s: State, n: nat, rec: TimerRec)
    requires Logged(s) && n < |s.log| && s.log[n] == rec && Live(s, rec.key)
    requires 1 <= rec.id <= s.mem[rec.key.addr].timerId
    ensures s.mem[rec.key.addr].timerId == rec.id <==> forall j :: n < j < |s.log| ==> s.log[j].key != rec.key
  {
    var top := TimerRec(rec.key, s.mem[rec.key.addr].timerId);
    assert top in s.log;
    var m :| 0 <= m < |s.log| && s.log[m] == top;
    if rec.id == top.id {
      forall j | n < j < |s.log| ensures s.log[j].key != rec.key {
        var x := s.log[j];
        assert x.key == rec.key ==> rec.id < x.id && x.id <= top.id;
      }
    } else {
      assert n != m;
      assert m < n ==> top.id < rec.id;
    }
  }
}
