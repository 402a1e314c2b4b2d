/** What the steps of the server do, over every run: which connection an event, an accept or a timer
    closes, keeps, registers or arms, and that no other one is touched. */
module ServerEffects {
  import opened ServerSpec
  import opened ServerInv
  import opened ServerRuns
  import L = Lanes

  /** The outcomes on which the server gives a connection up. */
  predicate GivesUp(o: Outcome) { o.Eof? || o.Exhausted? || o.Failed? || o.Rejected? }

  /** The data lane is empty once the bytes that the first write took are gone, and no write that was
      made ended the process. */
  predicate Drains(out: Output)
    requires out.Offered()
  {
    var b := out.wbuf;
    && b.rindex + L.Took(L.Makes1(b), out.w1) == b.windex
    && !(L.Makes1(b) && out.w1.Fatal?) && !(L.Makes2(b, out.w1) && out.w2.Fatal?)
  }

  predicate Aborts(out: Output)
    requires out.Offered()
  {
    (L.Makes1(out.wbuf) && out.w1.Fatal?) || (L.Makes2(out.wbuf, out.w1) && out.w2.Fatal?)
  }

  lemma SentMeaning(out: Output)
    requires out.Offered()
    ensures out.Sent().Complete? <==> Drains(out)
    ensures out.Sent().Fatal? <==> Aborts(out)
  {
    L.IndicesMove(out.wbuf, out.w1, out.w2);
    L.ReturnMeaning(out.wbuf, out.w1, out.w2);
    hide L.WriteFd;
    hide L.Took;
  }

  // ---------------------------------------------------------------- one connection changes

  /** Every connection but the one at `a` is as before. */
  ghost predicate OthersKept(s: State, r: State, a: Addr)
  {
    forall b :: b != a ==> (b in r.mem <==> b in s.mem) && (b in s.mem ==> r.mem[b] == s.mem[b])
  }

  /** The connection is gone: freed, closed once more than before, its descriptor closed and out of the
      interest set. */
  ghost predicate Gone(s: State, r: State, k: Key)
    requires k.addr in s.mem
  {
    && k.addr !in r.mem && k.addr !in r.channels && r.closed == s.closed + [k]
    && s.mem[k.addr].fd !in r.kernel && s.mem[k.addr].fd !in r.open
    && r.timers == s.timers && r.funcs == s.funcs
  }

  /** The connection stays, with the fields of `c`; a timer is armed for it exactly if `armed`, and its
      queued `update_channel` calls grow by `work`. */
  ghost predicate Stays(s: State, r: State, k: Key, c: Conn, armed: bool, work: seq<Key>)
    requires k.addr in s.mem
  {
    var id := s.mem[k.addr].timerId;
    && k.addr in r.mem && r.mem[k.addr] == c.(timerId := if armed then id + 1 else id)
    && r.mem[k.addr].fd == s.mem[k.addr].fd && r.mem[k.addr].ts == k.ts
    && k.addr in r.channels && r.channels[k.addr] == k.ts
    && r.timers == s.timers + (if armed then {TimerRec(k, id + 1)} else {})
    && r.closed == s.closed && r.funcs == s.funcs + work
    && c.fd in r.kernel && r.kernel[c.fd] == c.sevent && c.fd in r.open
  }

  // ---------------------------------------------------------------- events

  /** The connection for which the next event is, and what the event asks for. */
  predicate ReadEvent(s: State) { s.phase.Handling? && s.phase.events != [] && s.phase.events[0].inn }

  predicate WriteEvent(s: State)
  {
    s.phase.Handling? && s.phase.events != [] && !s.phase.events[0].inn && s.phase.events[0].out
  }

  lemma StepOf(cfg: Config, states: seq<State>, steps: seq<Step>, i: nat)
    requires IsRun(cfg, states, steps) && i < |steps|
    ensures Inv(cfg, states[i]) && Inv(cfg, states[i + 1])
    ensures Enabled(cfg, states[i], steps[i]) && states[i + 1] == Next(cfg, states[i], steps[i])
  {
    RunsKeepInv(cfg, states, steps, i);
    RunsKeepInv(cfg, states, steps, i + 1);
    hide Inv;
  }

  /** The handled connection, without its step. */
  lemma EventConn(cfg: Config, s: State)
    requires Inv(cfg, s) && s.phase.Handling? && s.phase.events != []
    ensures var ev := s.phase.events[0];
            && ev.addr in s.mem && (ev.inn ==> Reading(s.mem[ev.addr])) && (ev.out ==> Writing(s.mem[ev.addr]))
            && s.mem[ev.addr].fd in s.kernel && s.kernel[s.mem[ev.addr].fd] == s.mem[ev.addr].sevent
            && s.mem[ev.addr].fd in s.open && !s.mem[ev.addr].sevent.NoEvent? && Table(s)
  {
    EventFacts(cfg, s);
    assert Mirror(s);
  }

  lemma RemovedIsGone(s: State, a: Addr)
    requires a in s.mem
    ensures var k := Key(a, s.mem[a].ts); Gone(s, Removed(s, a), k) && OthersKept(s, Removed(s, a), a)
  {
  }

  lemma PutStays(s: State, a: Addr, c: Conn, arm: bool, work: seq<Key>)
    requires a in s.mem && Table(s) && c.ts == s.mem[a].ts && c.fd == s.mem[a].fd && c.timerId == s.mem[a].timerId
    requires c.fd in s.open
    ensures var r := Put(s.(funcs := s.funcs + work), a, c, arm);
            Stays(s, r, Key(a, c.ts), c, arm, work) && OthersKept(s, r, a) && r.phase == s.phase
  {
  }

  /** End of file, no protocol left, a parse error and a request without a usable service close the
      connection, once; nothing else that a readable connection brings does. */
  lemma ReadEffect(cfg: Config, s: State, o: Outcome, out: Output)
    requires Inv(cfg, s) && ReadEvent(s) && Enabled(cfg, s, HandleNext(o, out))
    ensures var a := s.phase.events[0].addr;
            var r := Next(cfg, s, HandleNext(o, out));
            && a in s.mem && OthersKept(s, r, a)
            && (var k, c := Key(a, s.mem[a].ts), s.mem[a];
                match o
                case Partial(idx, made) =>
                  Stays(s, r, k, c.(protoIdx := idx, ctx := if made then Parsing(idx) else c.ctx), false, [])
                case Served(idx, short) =>
                  Stays(s, r, k, c.(protoIdx := idx, ctx := Responding(idx, short), event := EpollOut),
                        cfg.writeTimeout, [k])
                case Crashed => r.mem == s.mem && r.closed == s.closed
                case _ => Gone(s, r, k))
            && r.phase == if o.Crashed? then Down else Handling(s.phase.events[1..])
  {
    EventConn(cfg, s);
    ReadTurn(cfg, s, o, out);
    hide Inv;
    hide Next;
    hide Enabled;
    hide Readable;
    hide Stays;
    hide Gone;
    hide OthersKept;
    var a := s.phase.events[0].addr;
    match o
    case Partial(idx, made) => PartialEffect(cfg, s, a, idx, made);
    case Served(idx, short) => ServedEffect(cfg, s, a, idx, short);
    case Crashed => CrashEffect(cfg, s, a);
    case _ => GivenUpEffect(cfg, s, a, o);
  }

  lemma ReadTurn(cfg: Config, s: State, o: Outcome, out: Output)
    requires ReadEvent(s) && Enabled(cfg, s, HandleNext(o, out)) && s.phase.events[0].addr in s.mem
    ensures Next(cfg, s, HandleNext(o, out)) == Readable(cfg, Popped(s), s.phase.events[0].addr, o)
  {
    hide Readable;
    hide WriteComplete;
    hide Output.Sent;
  }

  lemma PartialEffect(cfg: Config, s: State, a: Addr, idx: nat, made: bool)
    requires s.phase.Handling? && s.phase.events != [] && a in s.mem && Table(s)
    requires s.mem[a].fd in s.kernel && s.kernel[s.mem[a].fd] == s.mem[a].sevent && s.mem[a].fd in s.open
    ensures var r, c := Readable(cfg, Popped(s), a, Partial(idx, made)), s.mem[a];
            && Stays(s, r, Key(a, c.ts), c.(protoIdx := idx, ctx := if made then Parsing(idx) else c.ctx), false, [])
            && OthersKept(s, r, a) && r.phase == Popped(s).phase
  {
    var c := s.mem[a];
    var c1 := c.(protoIdx := idx, ctx := if made then Parsing(idx) else c.ctx);
    assert s.kernel[c.fd := c.sevent] == s.kernel;
    assert s.funcs + [] == s.funcs;
    assert Readable(cfg, Popped(s), a, Partial(idx, made)) == Put(Popped(s), a, c1, false);
    hide Readable;
    PutStays(Popped(s), a, c1, false, []);
  }

  lemma ServedEffect(cfg: Config, s: State, a: Addr, idx: nat, short: bool)
    requires s.phase.Handling? && s.phase.events != [] && a in s.mem && Table(s)
    requires s.mem[a].fd in s.kernel && s.kernel[s.mem[a].fd] == s.mem[a].sevent && s.mem[a].fd in s.open
    ensures var r, c := Readable(cfg, Popped(s), a, Served(idx, short)), s.mem[a];
            && Stays(s, r, Key(a, c.ts), c.(protoIdx := idx, ctx := Responding(idx, short), event := EpollOut),
                     cfg.writeTimeout, [Key(a, c.ts)])
            && OthersKept(s, r, a) && r.phase == Popped(s).phase
  {
    var c := s.mem[a];
    assert Readable(cfg, Popped(s), a, Served(idx, short)) == Respond(cfg, Popped(s), a, idx, short)
      by { hide Respond; }
    hide Readable;
    RespondPuts(cfg, Popped(s), a, idx, short);
    hide Respond;
    PutStays(Popped(s), a, c.(protoIdx := idx, ctx := Responding(idx, short), event := EpollOut), cfg.writeTimeout,
             [Key(a, c.ts)]);
  }

  lemma CrashEffect(cfg: Config, s: State, a: Addr)
    requires s.phase.Handling? && s.phase.events != []
    ensures var r := Readable(cfg, Popped(s), a, Crashed);
            r.mem == s.mem && r.closed == s.closed && r.phase == Down && OthersKept(s, r, a)
  {
    hide Close;
    hide Respond;
  }

  lemma GivenUpEffect(cfg: Config, s: State, a: Addr, o: Outcome)
    requires s.phase.Handling? && s.phase.events != [] && a in s.mem && Table(s) && GivesUp(o)
    requires s.mem[a].fd in s.kernel && !s.mem[a].sevent.NoEvent?
    ensures var r := Readable(cfg, Popped(s), a, o);
            Gone(s, r, Key(a, s.mem[a].ts)) && OthersKept(s, r, a) && r.phase == Popped(s).phase
  {
    assert Readable(cfg, Popped(s), a, o) == Close(Popped(s), a) by { hide Close; hide Respond; }
    hide Readable;
    CloseRemoves(Popped(s), a);
    hide Close;
    RemovedIsGone(Popped(s), a);
  }

  /** A drained connection is closed exactly if its request said so; otherwise it reads again, without a
      context, with a read timer exactly if that is on.  One that is not drained is left alone. */
  lemma WriteEffect(cfg: Config, s: State, o: Outcome, out: Output)
    requires Inv(cfg, s) && WriteEvent(s) && Enabled(cfg, s, HandleNext(o, out))
    ensures var a := s.phase.events[0].addr;
            var r := Next(cfg, s, HandleNext(o, out));
            && a in s.mem && OthersKept(s, r, a) && s.mem[a].ctx.Responding?
            && (var k, c := Key(a, s.mem[a].ts), s.mem[a];
                if Drains(out) then
                  if c.ctx.short then Gone(s, r, k)
                  else Stays(s, r, k, c.(event := EpollIn, sevent := EpollIn, ctx := NoCtx), cfg.readTimeout, [])
                else r == s.(phase := r.phase))
            && r.phase == if Aborts(out) then Down else Handling(s.phase.events[1..])
  {
    EventConn(cfg, s);
    SentMeaning(out);
    WriteTurn(cfg, s, o, out);
    DrainsOrAborts(out);
    var a := s.phase.events[0].addr;
    hide Inv;
    hide Next;
    hide Enabled;
    hide Drains;
    hide Aborts;
    hide Output.Sent;
    hide WriteComplete;
    if out.Sent().Complete? {
      if s.mem[a].ctx.short {
        WrittenShort(cfg, s, a);
      } else {
        WrittenKept(cfg, s, a);
      }
    }
    hide Stays;
    hide Gone;
  }

  lemma WriteTurn(cfg: Config, s: State, o: Outcome, out: Output)
    requires WriteEvent(s) && Enabled(cfg, s, HandleNext(o, out)) && s.phase.events[0].addr in s.mem
    ensures Next(cfg, s, HandleNext(o, out)) ==
            match out.Sent()
            case Complete => WriteComplete(cfg, Popped(s), s.phase.events[0].addr)
            case Fatal => Popped(s).(phase := Down)
            case Incomplete => Popped(s)
  {
    hide Readable;
    hide WriteComplete;
    hide Output.Sent;
  }

  lemma WrittenShort(cfg: Config, s: State, a: Addr)
    requires s.phase.Handling? && s.phase.events != [] && a in s.mem && Table(s)
    requires Writing(s.mem[a]) && s.mem[a].ctx.short && s.mem[a].fd in s.kernel
    ensures var r := WriteComplete(cfg, Popped(s), a);
            Gone(s, r, Key(a, s.mem[a].ts)) && OthersKept(s, r, a) && r.phase == Popped(s).phase
  {
    WriteCloses(cfg, Popped(s), a);
    hide WriteComplete;
    RemovedIsGone(Popped(s), a);
  }

  lemma WrittenKept(cfg: Config, s: State, a: Addr)
    requires s.phase.Handling? && s.phase.events != [] && a in s.mem && Table(s)
    requires Writing(s.mem[a]) && !s.mem[a].ctx.short && s.mem[a].fd in s.kernel && s.mem[a].fd in s.open
    ensures var r, c := WriteComplete(cfg, Popped(s), a), s.mem[a];
            && Stays(s, r, Key(a, c.ts), c.(event := EpollIn, sevent := EpollIn, ctx := NoCtx), cfg.readTimeout, [])
            && OthersKept(s, r, a) && r.phase == Popped(s).phase
  {
    ReArmPuts(cfg, Popped(s), a);
    hide WriteComplete;
    assert s.funcs + [] == s.funcs;
    PutStays(Popped(s), a, s.mem[a].(event := EpollIn, sevent := EpollIn, ctx := NoCtx), cfg.readTimeout, []);
  }

  lemma DrainsOrAborts(out: Output)
    requires out.Offered()
    ensures !(Drains(out) && Aborts(out))
  {
  }

  /** An event that asks for neither direction is ignored. */
  lemma OtherEffect(cfg: Config, s: State, o: Outcome, out: Output)
    requires Inv(cfg, s) && s.phase.Handling? && s.phase.events != [] && !ReadEvent(s) && !WriteEvent(s)
    requires Enabled(cfg, s, HandleNext(o, out))
    ensures Next(cfg, s, HandleNext(o, out)) == s.(phase := Handling(s.phase.events[1..]))
  {
    EventConn(cfg, s);
    hide Inv;
    hide Readable;
    hide WriteComplete;
    hide Output.Sent;
  }

  /** Over every run: a readable event whose outcome gives the connection up makes its identity dead,
      records exactly that close, and takes its descriptor out of the kernel's set; any other outcome
      closes nothing and, unless the process ends, leaves the connection live. */
  lemma ClosedExactly(cfg: Config, states: seq<State>, steps: seq<Step>, i: nat)
    requires IsRun(cfg, states, steps) && i < |steps| && steps[i].HandleNext? && ReadEvent(states[i])
    ensures var s, r, o := states[i], states[i + 1], steps[i].o;
            var a := s.phase.events[0].addr;
            && a in s.mem
            && (var k := Key(a, s.mem[a].ts);
                && (GivesUp(o) <==> !Live(r, k))
                && r.closed == (if GivesUp(o) then s.closed + [k] else s.closed)
                && (GivesUp(o) ==> s.mem[a].fd !in r.kernel && s.mem[a].fd !in r.open))
  {
    StepOf(cfg, states, steps, i);
    ReadEffect(cfg, states[i], steps[i].o, steps[i].out);
    hide Inv;
    hide Next;
    hide Enabled;
  }

  /** `remove_channel` takes away the entry of that address and stamp, and no other. */
  lemma RemovesExactly(s: State, a: Addr, ts: int, b: Addr, t: int)
    ensures HasChannel(RemoveChannel(s, a, ts), b, t) <==> HasChannel(s, b, t) && !(b == a && t == ts)
    ensures RemoveChannel(s, a, ts) == s.(channels := RemoveChannel(s, a, ts).channels)
  {
  }

  // ---------------------------------------------------------------- accepting

  /** A new connection is live, reading and registered, and has a read timer exactly if that is on. */
  lemma AcceptEffect(cfg: Config, states: seq<State>, steps: seq<Step>, i: nat)
    requires IsRun(cfg, states, steps) && i < |steps| && steps[i].Accept?
    ensures var s, r, k := states[i], states[i + 1], Key(steps[i].addr, steps[i].ts);
            && !Live(s, k) && Live(r, k) && Reading(r.mem[k.addr]) && r.mem[k.addr].ctx.NoCtx?
            && r.mem[k.addr].fd == steps[i].fd && r.mem[k.addr].protoIdx == 0
            && steps[i].fd in r.kernel && r.kernel[steps[i].fd] == EpollIn
            && r.timers == s.timers + (if cfg.readTimeout then {TimerRec(k, 1)} else {})
            && OthersKept(s, r, k.addr) && r.closed == s.closed && r.funcs == s.funcs && r.phase == s.phase
  {
    StepOf(cfg, states, steps, i);
    hide IsRun;
    AcceptTurn(cfg, states[i], steps[i].fd, steps[i].addr, steps[i].ts);
    hide Inv;
    hide Next;
    hide Enabled;
    hide NewConnection;
    AcceptedConn(cfg, states[i], steps[i].fd, steps[i].addr, steps[i].ts);
    hide OthersKept;
  }

  lemma AcceptedConn(cfg: Config, s: State, fd: Fd, a: Addr, ts: int)
    requires fd !in s.kernel && a !in s.mem
    ensures var r, k := NewConnection(cfg, s, fd, a, ts), Key(a, ts);
            && Live(r, k) && Reading(r.mem[a]) && r.mem[a].ctx.NoCtx?
            && r.mem[a].fd == fd && r.mem[a].protoIdx == 0 && fd in r.kernel && r.kernel[fd] == EpollIn
            && r.timers == s.timers + (if cfg.readTimeout then {TimerRec(k, 1)} else {})
            && OthersKept(s, r, a) && r.closed == s.closed && r.funcs == s.funcs && r.phase == s.phase
  {
    AcceptPuts(cfg, s, fd, a, ts);
    hide NewConnection;
  }

  lemma AcceptTurn(cfg: Config, s: State, fd: Fd, a: Addr, ts: int)
    requires Inv(cfg, s) && Enabled(cfg, s, Accept(fd, a, ts))
    ensures Next(cfg, s, Accept(fd, a, ts)) == NewConnection(cfg, s, fd, a, ts)
    ensures fd !in s.kernel && a !in s.mem
  {
    assert Mirror(s);
    hide NewConnection;
  }

  // ---------------------------------------------------------------- Short and keep-alive

  /** The connection with identity `k` has the response of a request that said `short` packed. */
  predicate Answers(s: State, k: Key, short: bool)
  {
    Live(s, k) && s.mem[k.addr].ctx.Responding? && s.mem[k.addr].ctx.short == short
  }

  /** The step completes a write of the connection at `a`. */
  predicate CompletesWrite(s: State, step: Step, a: Addr)
  {
    && step.HandleNext? && step.out.Offered() && WriteEvent(s) && s.phase.events[0].addr == a && Drains(step.out)
  }

  lemma FuncEffect(cfg: Config, s: State, k: Key, short: bool)
    requires Inv(cfg, s) && Answers(s, k, short) && Enabled(cfg, s, NextFunc)
    ensures Answers(Next(cfg, s, NextFunc), k, short)
  {
    FuncFacts(cfg, s);
    hide Inv;
    var s1 := s.(phase := RunFuncs(s.phase.batch[1..]));
    assert Next(cfg, s, NextFunc) == UpdateChannel(s1, s.phase.batch[0].addr) by { hide UpdateChannel; }
    hide Next;
    hide Enabled;
    UpdateKeepsConn(s1, s.phase.batch[0].addr, k.addr);
    hide UpdateChannel;
  }

  lemma UpdateKeepsConn(s: State, a: Addr, b: Addr)
    requires b in s.mem
    ensures var r := UpdateChannel(s, a); b in r.mem && r.mem[b] == s.mem[b].(sevent := r.mem[b].sevent)
  {
  }

  lemma TimerEffect(cfg: Config, s: State, k: Key, short: bool)
    requires Inv(cfg, s) && Answers(s, k, short) && Enabled(cfg, s, NextTimer)
    ensures var r := Next(cfg, s, NextTimer); Live(r, k) ==> Answers(r, k, short)
  {
    TimerKeeps(cfg, s);
    hide Inv;
    hide Next;
  }

  lemma EventAnswers(cfg: Config, s: State, k: Key, short: bool, o: Outcome, out: Output)
    requires Inv(cfg, s) && Answers(s, k, short) && Enabled(cfg, s, HandleNext(o, out))
    requires !CompletesWrite(s, HandleNext(o, out), k.addr)
    ensures var r := Next(cfg, s, HandleNext(o, out)); Live(r, k) ==> Answers(r, k, short)
  {
    EventConn(cfg, s);
    if ReadEvent(s) {
      ReadEffect(cfg, s, o, out);
    } else if WriteEvent(s) {
      WriteEffect(cfg, s, o, out);
    } else {
      OtherEffect(cfg, s, o, out);
    }
    hide Inv;
    hide Next;
    hide Enabled;
  }

  /** A packed response keeps its connection type until its write completes. */
  lemma StillAnswers(cfg: Config, s: State, step: Step, k: Key, short: bool)
    requires Inv(cfg, s) && Answers(s, k, short) && Enabled(cfg, s, step) && !CompletesWrite(s, step, k.addr)
    ensures var r := Next(cfg, s, step); Live(r, k) ==> Answers(r, k, short)
  {
    hide Inv;
    hide Next;
    hide Enabled;
    hide Answers;
    hide CompletesWrite;
    match step
    case HandleNext(o, out) => EventAnswers(cfg, s, k, short, o, out);
    case NextFunc => FuncEffect(cfg, s, k, short);
    case NextTimer => TimerEffect(cfg, s, k, short);
    case Accept(fd, a, ts) => AcceptAnswers(cfg, s, k, short, fd, a, ts);
    case _ => QuietAnswers(cfg, s, k, short, step);
  }

  lemma AcceptAnswers(cfg: Config, s: State, k: Key, short: bool, fd: Fd, a: Addr, ts: int)
    requires Inv(cfg, s) && Answers(s, k, short) && Enabled(cfg, s, Accept(fd, a, ts))
    ensures Answers(Next(cfg, s, Accept(fd, a, ts)), k, short)
  {
    AcceptTurn(cfg, s, fd, a, ts);
    hide Inv;
    hide Next;
    hide Enabled;
    hide NewConnection;
    AcceptedConn(cfg, s, fd, a, ts);
  }

  /** The other steps change no connection. */
  lemma QuietAnswers(cfg: Config, s: State, k: Key, short: bool, step: Step)
    requires Answers(s, k, short) && Enabled(cfg, s, step)
    requires step.EpollReturns? || step.SwapFuncs? || step.DrainTimers? || step.EndRound?
    ensures Answers(Next(cfg, s, step), k, short)
  {
  }

  /** Step `m` leaves the connection live and completes no write of it. */
  predicate Undisturbed(states: seq<State>, steps: seq<Step>, k: Key, m: nat)
    requires m < |steps| < |states|
  {
    Live(states[m + 1], k) && !CompletesWrite(states[m], steps[m], k.addr)
  }

  lemma {:induction false} AnswersUntil(cfg: Config, states: seq<State>, steps: seq<Step>, i: nat, j: nat, k: Key,
                                        short: bool)
    requires IsRun(cfg, states, steps) && i <= j < |states| && Answers(states[i], k, short)
    requires forall m :: i <= m < j ==> Undisturbed(states, steps, k, m)
    ensures Answers(states[j], k, short)
    decreases j - i
  {
    if i < j {
      StepOf(cfg, states, steps, i);
      hide Inv;
      hide Next;
      hide Enabled;
      hide CompletesWrite;
      hide Answers;
      assert Undisturbed(states, steps, k, i);
      StillAnswers(cfg, states[i], steps[i], k, short);
      AnswersUntil(cfg, states, steps, i + 1, j, k, short);
    }
  }

  /** A request that is served with `short` at step `i` and whose response is written at step `j`: the
      connection is then gone if and only if the request said so. */
  lemma ShortClosesAfterWrite(cfg: Config, states: seq<State>, steps: seq<Step>, i: nat, j: nat)
    requires IsRun(cfg, states, steps) && i < j < |steps|
    requires steps[i].HandleNext? && ReadEvent(states[i]) && steps[i].o.Served?
    requires states[i].phase.events[0].addr in states[i].mem
    requires var a := states[i].phase.events[0].addr;
             var k := Key(a, states[i].mem[a].ts);
             && (forall m :: i < m < j ==> Undisturbed(states, steps, k, m))
             && CompletesWrite(states[j], steps[j], a)
    ensures var a := states[i].phase.events[0].addr;
            var k := Key(a, states[i].mem[a].ts);
            Live(states[j], k) && (Live(states[j + 1], k) <==> !steps[i].o.short)
  {
    hide CompletesWrite;
    hide Answers;
    var a := states[i].phase.events[0].addr;
    var k, short := Key(a, states[i].mem[a].ts), steps[i].o.short;
    ServedAnswers(cfg, states, steps, i);
    hide ReadEvent;
    AnswersUntil(cfg, states, steps, i + 1, j, k, short);
    CompletedWrite(cfg, states, steps, j, k, short);
    assert Live(states[j], k) by { AnswersIsLive(states[j], k, short); }
  }

  lemma AnswersIsLive(s: State, k: Key, short: bool)
    requires Answers(s, k, short)
    ensures Live(s, k)
  {
  }

  lemma ServedAnswers(cfg: Config, states: seq<State>, steps: seq<Step>, i: nat)
    requires IsRun(cfg, states, steps) && i < |steps|
    requires steps[i].HandleNext? && ReadEvent(states[i]) && steps[i].o.Served?
    ensures var a := states[i].phase.events[0].addr;
            a in states[i].mem && Answers(states[i + 1], Key(a, states[i].mem[a].ts), steps[i].o.short)
  {
    StepOf(cfg, states, steps, i);
    ReadEffect(cfg, states[i], steps[i].o, steps[i].out);
    hide IsRun;
    hide Inv;
    hide Enabled;
    hide Next;
  }

  lemma CompletedWrite(cfg: Config, states: seq<State>, steps: seq<Step>, j: nat, k: Key, short: bool)
    requires IsRun(cfg, states, steps) && j < |steps|
    requires Answers(states[j], k, short) && CompletesWrite(states[j], steps[j], k.addr)
    ensures Live(states[j + 1], k) <==> !short
  {
    StepOf(cfg, states, steps, j);
    WriteEffect(cfg, states[j], steps[j].o, steps[j].out);
    hide Inv;
    hide Enabled;
    hide Next;
    hide Drains;
  }
}
