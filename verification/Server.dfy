/** `PbServer` and the channel side of its loop as an object: callbacks that update the tables in
    place, each proved to be the specification's step and never to fault. */
module Server {
  import opened ServerSpec
  import opened ServerInv

  class PbServer {
    const cfg: Config
    var mem: map<Addr, Conn>
    var channels: map<Addr, int>
    var kernel: map<Fd, Mask>
    var open: set<Fd>
    var funcs: seq<Key>
    var timers: set<TimerRec>
    var phase: Phase
    ghost var used: set<Key>
    ghost var closed: seq<Key>
    ghost var log: seq<TimerRec>

    ghost function View(): State
      reads this
    {
      State(mem, channels, kernel, open, funcs, timers, phase, false, used, closed, log)
    }

    ghost predicate Valid()
      reads this
    {
      Inv(cfg, View())
    }

    constructor (cfg: Config)
      ensures this.cfg == cfg && View() == INIT && Valid()
    {
      this.cfg := cfg;
      mem, channels, kernel, open, funcs, timers, phase := map[], map[], map[], {}, [], {}, Waiting;
      used, closed, log := {}, [], [];
    }

    /** `_epoll_ctl` with EPOLL_CTL_ADD, MOD or DEL: the interest set follows `event`. */
    method EpollCtl(a: Addr)
      requires a in mem
      modifies this`kernel, this`mem
      ensures var c := old(mem)[a];
              && mem == old(mem)[a := c.(sevent := c.event)]
              && kernel == if c.event.NoEvent? then old(kernel) - {c.fd} else old(kernel)[c.fd := c.event]
    {
      var c := mem[a];
      if c.event.NoEvent? {
        kernel := kernel - {c.fd};
      } else {
        kernel := kernel[c.fd := c.event];
      }
      mem := mem[a := c.(sevent := c.event)];
    }

    /** `update_channel` where the kernel accepts what it asks for. */
    method UpdateChannel(a: Addr)
      requires !ServerSpec.UpdateChannel(View(), a).fault
      modifies this`kernel, this`mem
      ensures View() == ServerSpec.UpdateChannel(old(View()), a)
      ensures mem.Keys == old(mem.Keys) && mem[a].sevent == mem[a].event == old(mem[a].event)
      ensures forall b :: b in mem && b != a ==> mem[b] == old(mem[b])
    {
      if mem[a].sevent != mem[a].event {
        EpollCtl(a);
      }
    }

    /** `remove_channel`: the entry goes exactly if it is that of the stamp. */
    method RemoveChannel(a: Addr, ts: int)
      modifies this`channels
      ensures View() == ServerSpec.RemoveChannel(old(View()), a, ts)
      ensures !HasChannel(View(), a, ts)
      ensures forall b, t :: !(b == a && t == ts) ==> HasChannel(View(), b, t) == HasChannel(old(View()), b, t)
    {
      if a in channels && channels[a] == ts {
        channels := channels - {a};
      }
    }

    /** `timer_id.fetch_add(1)` and `run_after` with the bound callback. */
    method Arm(a: Addr)
      requires a in mem
      modifies this`mem, this`timers, this`log
      ensures View() == ServerSpec.Arm(old(View()), a)
      ensures mem.Keys == old(mem.Keys) && mem[a] == old(mem[a]).(timerId := old(mem[a].timerId) + 1)
      ensures TimerRec(Key(a, mem[a].ts), mem[a].timerId) in timers
    {
      var id := mem[a].timerId + 1;
      mem := mem[a := mem[a].(timerId := id)];
      timers := timers + {TimerRec(Key(a, mem[a].ts), id)};
      log := log + [TimerRec(Key(a, mem[a].ts), id)];
    }

    /** `close_callback`: the connection is freed, its descriptor closed and out of the interest set,
        and the close is recorded; other connections do not change. */
    method CloseCallback(a: Addr)
      requires !Close(View(), a).fault
      modifies this`mem, this`channels, this`kernel, this`open, this`closed
      ensures View() == Close(old(View()), a)
      ensures mem == old(mem) - {a} && closed == old(closed) + [Key(a, old(mem[a].ts))]
      ensures old(mem[a].fd) !in kernel && old(mem[a].fd) !in open && !HasChannel(View(), a, old(mem[a].ts))
    {
      var fd, ts := mem[a].fd, mem[a].ts;
      mem := mem[a := mem[a].(event := NoEvent)];
      UpdateChannel(a);
      open := open - {fd};
      kernel := kernel - {fd};
      RemoveChannel(a, ts);
      mem := mem - {a};
      closed := closed + [Key(a, ts)];
    }

    /** `new_connection_callback`: the new connection reads, is in the table and in the interest
        set, and has a read timer if that is on. */
    method NewConnectionCallback(fd: Fd, a: Addr, ts: int)
      requires Valid() && phase.Handling? && a !in mem && fd !in open && Key(a, ts) !in used
      modifies this
      ensures Valid() && View() == NewConnection(cfg, old(View()), fd, a, ts)
      ensures a in mem && Reading(mem[a])
    {
      hide Inv;
      ghost var s := View();
      AcceptKeeps(cfg, s, fd, a, ts);
      AcceptFacts(cfg, s, fd, a, ts);
      hide NewConnection;
      Register(fd, a, ts);
      if cfg.readTimeout {
        Arm(a);
      }
    }

    /** The new object enters the table and the interest set. */
    method Register(fd: Fd, a: Addr, ts: int)
      requires fd !in kernel
      modifies this
      ensures View() == Registered(old(View()), fd, a, ts)
    {
      mem := mem[a := Conn(fd, ts, NoEvent, NoEvent, 0, 0, NoCtx)];
      open := open + {fd};
      channels := channels[a := ts];
      used := used + {Key(a, ts)};
      mem := mem[a := mem[a].(event := EpollIn)];
      UpdateChannel(a);
    }

    /** `response_callback`: packed, the change to EPOLLOUT queued for the end of the round. */
    method ResponseCallback(a: Addr, idx: nat, short: bool)
      requires a in mem
      modifies this`mem, this`funcs, this`timers, this`log
      ensures View() == Respond(cfg, old(View()), a, idx, short)
      ensures mem.Keys == old(mem.Keys) && mem[a].ctx == Responding(idx, short)
      ensures mem[a].event.EpollOut? && mem[a].sevent == old(mem[a].sevent)
      ensures funcs == old(funcs) + [Key(a, mem[a].ts)]
    {
      mem := mem[a := mem[a].(protoIdx := idx, ctx := Responding(idx, short))];
      mem := mem[a := mem[a].(event := EpollOut)];
      funcs := funcs + [Key(a, mem[a].ts)];
      if cfg.writeTimeout {
        Arm(a);
      }
    }

    /** `write_complete_callback`: a short connection is closed, another one reads again without a
        context. */
    method WriteCompleteCallback(a: Addr)
      requires !WriteComplete(cfg, View(), a).fault
      modifies this`mem, this`channels, this`kernel, this`open, this`closed, this`timers, this`log
      ensures View() == WriteComplete(cfg, old(View()), a)
      ensures old(mem[a].ctx.short) ==> a !in mem && closed == old(closed) + [Key(a, old(mem[a].ts))]
      ensures !old(mem[a].ctx.short) ==> a in mem && Reading(mem[a]) && mem[a].ctx.NoCtx? && closed == old(closed)
    {
      var short := mem[a].ctx.short;
      mem := mem[a := mem[a].(ctx := NoCtx)];
      if short {
        CloseCallback(a);
      } else {
        mem := mem[a := mem[a].(event := EpollIn)];
        UpdateChannel(a);
        if cfg.readTimeout {
          Arm(a);
        }
      }
    }

    /** `TCPConnection::handle_events` for the next reported event: it never touches a connection
        that is gone, and keeps every invariant of the server. */
    method HandleEvents(o: Outcome, out: Output)
      requires Valid() && phase.Handling? && phase.events != [] && out.Offered()
      requires phase.events[0].addr in mem ==> Possible(cfg, mem[phase.events[0].addr], o)
      modifies this
      ensures Valid() && View() == Dispatch(cfg, old(View()), o, out.Sent())
      ensures old(phase.events[0].addr in mem)
    {
      hide Inv;
      hide Dispatch;
      hide Output.Sent;
      EventFacts(cfg, View());
      HandleEvent(o, out.Sent());
    }

    /** The branches of `handle_events`. */
    method HandleEvent(o: Outcome, sent: Sent)
      requires Valid() && phase.Handling? && phase.events != [] && phase.events[0].addr in mem
      requires Possible(cfg, mem[phase.events[0].addr], o)
      modifies this
      ensures Valid() && View() == Dispatch(cfg, old(View()), o, sent)
    {
      hide Inv;
      ghost var s := View();
      DispatchKeeps(cfg, s, o, sent);
      NoFault(cfg, Dispatch(cfg, s, o, sent));
      DispatchTurn(cfg, s, o, sent);
      hide Dispatch;
      hide Readable;
      hide WriteComplete;
      hide Reading;
      hide Possible;
      var ev := phase.events[0];
      phase := Handling(phase.events[1..]);
      if ev.inn {
        DataReadCallback(ev.addr, o);
      } else if ev.out && sent.Complete? {
        WriteCompleteCallback(ev.addr);
      } else if ev.out && sent.Fatal? {
        phase := Down;
      }
    }

    /** `read_fd` followed by `close_callback` or `data_read_callback`, by its outcome. */
    method DataReadCallback(a: Addr, o: Outcome)
      requires !Readable(cfg, View(), a, o).fault
      modifies this
      ensures View() == Readable(cfg, old(View()), a, o)
    {
      hide Close;
      hide Respond;
      match o
      case Partial(idx, made) =>
        var c := mem[a];
        mem := mem[a := c.(protoIdx := idx, ctx := if made then Parsing(idx) else c.ctx)];
      case Served(idx, short) =>
        RespondNeeds(cfg, View(), a, idx, short);
        ResponseCallback(a, idx, short);
      case Crashed => phase := Down;
      case _ => CloseCallback(a);
    }

    /** One queued `update_channel`. */
    method NextFunction()
      requires Valid() && phase.RunFuncs? && phase.batch != []
      modifies this`mem, this`kernel, this`phase
      ensures Valid() && mem.Keys == old(mem.Keys) && phase == RunFuncs(old(phase.batch[1..]))
      ensures View() == Next(cfg, old(View()), ServerSpec.NextFunc)
    {
      hide Inv;
      ghost var s := View();
      FuncKeeps(cfg, s);
      NoFault(cfg, Next(cfg, s, ServerSpec.NextFunc));
      var a := phase.batch[0].addr;
      phase := RunFuncs(phase.batch[1..]);
      UpdateKeepsKeys(View(), a);
      hide ServerSpec.UpdateChannel;
      UpdateChannel(a);
    }

    /** The functions of the round: all queued `update_channel` calls, in order.  Afterwards every
        connection is registered for what it wants. */
    method RunFunctions()
      requires Valid() && phase.Handling? && phase.events == []
      modifies this`mem, this`kernel, this`phase, this`funcs
      ensures Valid() && phase == RunFuncs([]) && funcs == [] && mem.Keys == old(mem.Keys)
      ensures forall a :: a in mem ==> mem[a].sevent == mem[a].event
    {
      hide Inv;
      SwapKeeps(cfg, View());
      phase := RunFuncs(funcs);
      funcs := [];
      while phase.batch != []
        invariant Valid() && phase.RunFuncs? && funcs == [] && mem.Keys == old(mem.Keys)
        decreases |phase.batch|
      {
        NextFunction();
      }
      forall a | a in mem ensures mem[a].sevent == mem[a].event {
        About(cfg, View(), a);
      }
    }

    /** `timeout_callback` for the next due timer: the connection is closed exactly when it is live
        and the timer is its current one. */
    method TimeoutCallback()
      requires Valid() && phase.RunTimers? && phase.due != []
      modifies this
      ensures Valid() && View() == Next(cfg, old(View()), NextTimer)
      ensures var rec := old(phase.due[0]);
              closed == old(closed) + if old(Live(View(), rec.key) && mem[rec.key.addr].timerId == rec.id)
                                      then [rec.key] else []
    {
      hide Inv;
      ghost var s := View();
      TimerKeeps(cfg, s);
      NoFault(cfg, Next(cfg, s, NextTimer));
      var rec := phase.due[0];
      phase := RunTimers(phase.due[1..]);
      var a := rec.key.addr;
      if a in channels && channels[a] == rec.key.ts {
        if mem[a].timerId == rec.id {
          CloseCallback(a);
        }
      }
    }
  }

  /** The new object, registered but without its timer. */
  function Registered(s: State, fd: Fd, a: Addr, ts: int): State
  {
    var s1 := s.(mem := s.mem[a := Conn(fd, ts, NoEvent, NoEvent, 0, 0, NoCtx)], open := s.open + {fd},
                 channels := s.channels[a := ts], used := s.used + {Key(a, ts)});
    ServerSpec.UpdateChannel(ServerSpec.SetEvent(s1, a, EpollIn), a)
  }

  lemma AcceptFacts(cfg: Config, s: State, fd: Fd, a: Addr, ts: int)
    requires Inv(cfg, s) && a !in s.mem && fd !in s.open
    ensures fd !in s.kernel
    ensures var r := NewConnection(cfg, s, fd, a, ts);
            && a in Registered(s, fd, a, ts).mem
            && r == (if cfg.readTimeout then ServerSpec.Arm(Registered(s, fd, a, ts), a) else Registered(s, fd, a, ts))
            && a in r.mem && Reading(r.mem[a])
  {
    assert Mirror(s);
    hide Inv;
    assert fd !in s.kernel;
    hide Mirror;
  }

  /** The event that `Dispatch` handles, for a connection that exists. */
  lemma DispatchTurn(cfg: Config, s: State, o: Outcome, sent: Sent)
    requires s.phase.Handling? && s.phase.events != [] && s.phase.events[0].addr in s.mem
    ensures var ev := s.phase.events[0];
            var s1 := s.(phase := Handling(s.phase.events[1..]));
            Dispatch(cfg, s, o, sent) ==
            if ev.inn then Readable(cfg, s1, ev.addr, o)
            else if ev.out && sent.Complete? then WriteComplete(cfg, s1, ev.addr)
            else if ev.out && sent.Fatal? then s1.(phase := Down) else s1
  {
    hide Readable;
    hide WriteComplete;
  }

  lemma RespondNeeds(cfg: Config, s: State, a: Addr, idx: nat, short: bool)
    requires !Respond(cfg, s, a, idx, short).fault
    ensures a in s.mem
  {
  }

  lemma UpdateKeepsKeys(s: State, a: Addr)
    ensures var r := ServerSpec.UpdateChannel(s, a);
            r.mem.Keys == s.mem.Keys && r.phase == s.phase && r.funcs == s.funcs
  {
  }

  lemma NoFault(cfg: Config, s: State)
    requires Inv(cfg, s)
    ensures !s.fault
  {
  }
}
