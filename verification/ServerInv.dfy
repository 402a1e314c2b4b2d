/** Life-cycle safety, epoll mirror and timer generations of the server, over every run. */
module ServerInv {
  import opened ServerSpec

  // ---------------------------------------------------------------- invariants

  /** The identity is that of an allocated connection. */
  predicate Live(s: State, k: Key) { k.addr in s.mem && s.mem[k.addr].ts == k.ts }

  predicate Reading(c: Conn) { c.event.EpollIn? && c.sevent.EpollIn? && !c.ctx.Responding? }

  predicate Queued(c: Conn) { c.event.EpollOut? && c.sevent.EpollIn? && c.ctx.Responding? }

  predicate Writing(c: Conn) { c.event.EpollOut? && c.sevent.EpollOut? && c.ctx.Responding? }

  /** The queued `update_channel` calls, taken by the loop or not. */
  function Work(s: State): seq<Key> { if s.phase.RunFuncs? then s.phase.batch + s.funcs else s.funcs }

  function Due(s: State): seq<TimerRec> { if s.phase.RunTimers? then s.phase.due else [] }

  /** Every pending timer: in the heap or in the batch being run. */
  function Pending(s: State): set<TimerRec> { s.timers + set r | r in Due(s) }

  /** The channel table holds exactly the allocated connections, with their stamps. */
  ghost predicate Table(s: State)
  {
    && s.channels.Keys == s.mem.Keys
    && forall a :: a in s.mem ==> s.channels[a] == s.mem[a].ts
  }

  /** The kernel's interest set mirrors `_sevent`, for allocated connections and no others. */
  ghost predicate Mirror(s: State) { ConnsMirrored(s) && KernelMirrored(s) }

  ghost predicate ConnsMirrored(s: State)
  {
    && (forall a :: a in s.mem ==>
          var c := s.mem[a];
          c.fd in s.open && c.fd in s.kernel && s.kernel[c.fd] == c.sevent && !c.sevent.NoEvent?)
    && (forall a, b :: a in s.mem && b in s.mem && a != b ==> s.mem[a].fd != s.mem[b].fd)
  }

  ghost predicate KernelMirrored(s: State)
  {
    forall f :: f in s.kernel ==> exists a :: a in s.mem && s.mem[a].fd == f
  }

  /** Functions wait in the queue only while events are handled, or when the process has ended. */
  predicate Settled(s: State) { s.phase.Handling? || s.phase.Down? || s.funcs == [] }

  /** Every connection is reading, has its change to writing queued, or is writing. */
  ghost predicate Modes(cfg: Config, s: State)
  {
    && (forall a :: a in s.mem ==> Reading(s.mem[a]) || Queued(s.mem[a]) || Writing(s.mem[a]))
    && (forall a :: a in s.mem ==> (Queued(s.mem[a]) <==> Key(a, s.mem[a].ts) in Work(s)))
    && (forall k :: k in Work(s) ==> Live(s, k))
    && (forall i, j :: 0 <= i < j < |Work(s)| ==> Work(s)[i] != Work(s)[j])
    && Settled(s)
  }

  /** A context belongs to the protocol at the index, so the downcast in `parse_request` succeeds. */
  ghost predicate Protocols(cfg: Config, s: State)
  {
    forall a :: a in s.mem && !s.mem[a].ctx.NoCtx? ==> s.mem[a].ctx.proto == s.mem[a].protoIdx < cfg.protocols
  }

  /** The events still to be handled are about connections in the right mode. */
  ghost predicate Reported(s: State)
  {
    s.phase.Handling? ==>
      var evs := s.phase.events;
      && (forall i, j :: 0 <= i < j < |evs| ==> evs[i].addr != evs[j].addr)
      && (forall i :: 0 <= i < |evs| ==>
            && evs[i].addr in s.mem
            && (evs[i].inn ==> Reading(s.mem[evs[i].addr]))
            && (evs[i].out ==> Writing(s.mem[evs[i].addr])))
  }

  /** Every identity ever used is live or closed, not both, and is closed at most once. */
  ghost predicate History(s: State)
  {
    && (forall a :: a in s.mem ==> Key(a, s.mem[a].ts) in s.used)
    && (forall i :: 0 <= i < |s.closed| ==> s.closed[i] in s.used && !Live(s, s.closed[i]))
    && (forall i, j :: 0 <= i < j < |s.closed| ==> s.closed[i] != s.closed[j])
    && (forall k :: k in s.used ==> Live(s, k) || k in s.closed)
  }

  ghost predicate Generations(cfg: Config, s: State)
  {
    && (forall r :: r in Pending(s) ==> r.key in s.used)
    && (forall r :: r in Pending(s) && Live(s, r.key) ==> 1 <= r.id <= s.mem[r.key.addr].timerId)
    && (forall i :: 0 <= i < |Due(s)| ==> Due(s)[i] !in s.timers)
    && (forall i, j :: 0 <= i < j < |Due(s)| ==> Due(s)[i] != Due(s)[j])
    && (forall a :: a in s.mem && s.mem[a].timerId > 0 ==>
          TimerRec(Key(a, s.mem[a].ts), s.mem[a].timerId) in Pending(s))
    && (cfg.readTimeout ==> forall a :: a in s.mem ==> s.mem[a].timerId > 0)
  }

  /** The log of armed timers: identities in use, ids of a live connection growing up to its
      `timer_id`, and every pending timer in it. */
  ghost predicate Logged(s: State) { LogGrows(s) && LogIsComplete(s) }

  ghost predicate LogGrows(s: State)
  {
    && (forall i :: 0 <= i < |s.log| ==> s.log[i].key in s.used && s.log[i].id >= 1)
    && (forall i :: 0 <= i < |s.log| && Live(s, s.log[i].key) ==> s.log[i].id <= s.mem[s.log[i].key.addr].timerId)
    && (forall i, j :: 0 <= i < j < |s.log| && s.log[i].key == s.log[j].key ==> s.log[i].id < s.log[j].id)
  }

  ghost predicate LogIsComplete(s: State)
  {
    && (forall r :: r in Pending(s) ==> r in s.log)
    && (forall a :: a in s.mem && s.mem[a].timerId > 0 ==> TimerRec(Key(a, s.mem[a].ts), s.mem[a].timerId) in s.log)
  }

  ghost predicate Inv(cfg: Config, s: State)
  {
    && !s.fault
    && Table(s) && Mirror(s) && Modes(cfg, s) && Protocols(cfg, s)
    && Reported(s) && History(s) && Generations(cfg, s) && Logged(s)
  }

  // ---------------------------------------------------------------- the two kinds of change

  /** The state without the connection at `a`. */
  function Removed(s: State, a: Addr): State
    requires a in s.mem
  {
    var c := s.mem[a];
    s.(mem := s.mem - {a}, channels := s.channels - {a}, kernel := s.kernel - {c.fd}, open := s.open - {c.fd},
       closed := s.closed + [Key(a, c.ts)])
  }

  /** `close_callback` on a registered connection removes it and nothing else. */
  lemma CloseRemoves(s: State, a: Addr)
    requires a in s.mem && s.mem[a].fd in s.kernel && !s.mem[a].sevent.NoEvent? && Table(s)
    ensures Close(s, a) == Removed(s, a)
  {
    var c := s.mem[a];
    var s1 := UpdateChannel(SetEvent(s, a, NoEvent), a);
    assert s1.mem - {a} == s.mem - {a};
    assert s1.kernel - {c.fd} == s.kernel - {c.fd};
  }

  /** The state with `c` at `a`, registered as its `sevent` says, and a timer armed if `arm`. */
  function Put(s: State, a: Addr, c: Conn, arm: bool): State
  {
    var rec := TimerRec(Key(a, c.ts), c.timerId + 1);
    var s1 := s.(kernel := s.kernel[c.fd := c.sevent]);
    if arm
    then s1.(mem := s.mem[a := c.(timerId := c.timerId + 1)], timers := s.timers + {rec}, log := s.log + [rec])
    else s1.(mem := s.mem[a := c])
  }

  lemma AcceptPuts(cfg: Config, s: State, fd: Fd, a: Addr, ts: int)
    requires fd !in s.kernel
    ensures var s1 := s.(open := s.open + {fd}, channels := s.channels[a := ts], used := s.used + {Key(a, ts)});
            NewConnection(cfg, s, fd, a, ts) == Put(s1, a, Conn(fd, ts, EpollIn, EpollIn, 0, 0, NoCtx), cfg.readTimeout)
  {
    var s1 := s.(open := s.open + {fd}, channels := s.channels[a := ts], used := s.used + {Key(a, ts)});
    var c := Conn(fd, ts, EpollIn, EpollIn, 0, 0, NoCtx);
    assert s.mem[a := Conn(fd, ts, NoEvent, NoEvent, 0, 0, NoCtx)]
                [a := Conn(fd, ts, EpollIn, NoEvent, 0, 0, NoCtx)][a := c] == s.mem[a := c];
    assert s.mem[a := c][a := c.(timerId := 1)] == s.mem[a := c.(timerId := 1)];
  }

  lemma RespondPuts(cfg: Config, s: State, a: Addr, idx: nat, short: bool)
    requires a in s.mem && s.mem[a].fd in s.kernel && s.kernel[s.mem[a].fd] == s.mem[a].sevent
    ensures var c := s.mem[a];
            Respond(cfg, s, a, idx, short) ==
            Put(s.(funcs := s.funcs + [Key(a, c.ts)]), a,
                c.(protoIdx := idx, ctx := Responding(idx, short), event := EpollOut), cfg.writeTimeout)
  {
    var c := s.mem[a];
    var c1 := c.(protoIdx := idx, ctx := Responding(idx, short), event := EpollOut);
    assert s.kernel[c.fd := c.sevent] == s.kernel;
    assert s.mem[a := c.(protoIdx := idx, ctx := Responding(idx, short))][a := c1] == s.mem[a := c1];
    assert s.mem[a := c1][a := c1.(timerId := c1.timerId + 1)] == s.mem[a := c1.(timerId := c1.timerId + 1)];
  }

  lemma ReArmPuts(cfg: Config, s: State, a: Addr)
    requires a in s.mem && Writing(s.mem[a]) && !s.mem[a].ctx.short && s.mem[a].fd in s.kernel
    ensures WriteComplete(cfg, s, a) ==
            Put(s, a, s.mem[a].(event := EpollIn, sevent := EpollIn, ctx := NoCtx), cfg.readTimeout)
  {
    var c := s.mem[a];
    var c1 := c.(event := EpollIn, sevent := EpollIn, ctx := NoCtx);
    assert s.mem[a := c.(ctx := NoCtx)][a := c.(ctx := NoCtx, event := EpollIn)][a := c1] == s.mem[a := c1];
    assert s.mem[a := c1][a := c1.(timerId := c1.timerId + 1)] == s.mem[a := c1.(timerId := c1.timerId + 1)];
  }

  // ---------------------------------------------------------------- removal keeps the invariants

  lemma RemovedMirror(s: State, a: Addr)
    requires a in s.mem && Mirror(s)
    ensures Mirror(Removed(s, a))
  {
    var r := Removed(s, a);
    forall f | f in r.kernel ensures exists b :: b in r.mem && r.mem[b].fd == f {
      var b :| b in s.mem && s.mem[b].fd == f;
      assert b in r.mem;
    }
  }

  lemma RemovedModes(cfg: Config, s: State, a: Addr)
    requires a in s.mem && Modes(cfg, s) && !Queued(s.mem[a])
    ensures Modes(cfg, Removed(s, a))
  {
    var r := Removed(s, a);
    assert Work(r) == Work(s);
    forall k | k in Work(r) ensures Live(r, k) {
      assert Live(s, k);
    }
  }

  lemma RemovedHistory(s: State, a: Addr)
    requires a in s.mem && History(s)
    ensures History(Removed(s, a))
  {
    var r := Removed(s, a);
    var k := Key(a, s.mem[a].ts);
    assert Live(s, k);
    forall x | x in r.used ensures Live(r, x) || x in r.closed {
      assert Live(s, x) || x in s.closed;
    }
    forall i, j | 0 <= i < j < |r.closed| ensures r.closed[i] != r.closed[j] {
      assert i < |s.closed| && !Live(s, s.closed[i]);
    }
  }

  lemma RemovedGenerations(cfg: Config, s: State, a: Addr)
    requires a in s.mem && Generations(cfg, s)
    ensures Generations(cfg, Removed(s, a))
  {
    var r := Removed(s, a);
    assert Due(r) == Due(s) && Pending(r) == Pending(s);
    forall x | x in Pending(r) && Live(r, x.key) ensures 1 <= x.id <= r.mem[x.key.addr].timerId {
      assert Live(s, x.key);
    }
  }

  lemma RemovedLogged(s: State, a: Addr)
    requires a in s.mem && Logged(s)
    ensures Logged(Removed(s, a))
  {
    var r := Removed(s, a);
    assert Pending(r) == Pending(s);
    forall i | 0 <= i < |r.log| && Live(r, r.log[i].key) ensures r.log[i].id <= r.mem[r.log[i].key.addr].timerId {
      assert Live(s, s.log[i].key);
    }
  }

  /** Removing a connection that has no change queued and no event left keeps all invariants. */
  lemma RemovedKeeps(cfg: Config, s: State, a: Addr)
    requires a in s.mem && Inv(cfg, s) && !Queued(s.mem[a])
    requires s.phase.Handling? ==> forall i :: 0 <= i < |s.phase.events| ==> s.phase.events[i].addr != a
    ensures Inv(cfg, Removed(s, a))
  {
    hide Mirror;
    hide Modes;
    hide History;
    hide Generations;
    hide Logged;
    RemovedMirror(s, a);
    RemovedModes(cfg, s, a);
    RemovedHistory(s, a);
    RemovedGenerations(cfg, s, a);
    RemovedLogged(s, a);
  }

  // ---------------------------------------------------------------- a put keeps the invariants

  lemma PutMirror(s: State, a: Addr, c: Conn, arm: bool)
    requires c.fd in s.open && !c.sevent.NoEvent?
    requires forall b :: b in s.mem && b != a ==> s.mem[b].fd != c.fd
    requires a in s.mem ==> s.mem[a].fd == c.fd
    requires Mirror(s)
    ensures Mirror(Put(s, a, c, arm))
  {
    PutConnsMirrored(s, a, c, arm);
    PutKernelMirrored(s, a, c, arm);
    hide ConnsMirrored;
    hide KernelMirrored;
  }

  lemma PutConnsMirrored(s: State, a: Addr, c: Conn, arm: bool)
    requires ConnsMirrored(s) && c.fd in s.open && !c.sevent.NoEvent?
    requires forall b :: b in s.mem && b != a ==> s.mem[b].fd != c.fd
    ensures ConnsMirrored(Put(s, a, c, arm))
  {
  }

  lemma PutKernelMirrored(s: State, a: Addr, c: Conn, arm: bool)
    requires KernelMirrored(s) && (a in s.mem ==> s.mem[a].fd == c.fd)
    ensures KernelMirrored(Put(s, a, c, arm))
  {
    var r := Put(s, a, c, arm);
    assert a in r.mem && r.mem[a].fd == c.fd;
    forall f | f in r.kernel && f != c.fd ensures exists b :: b in r.mem && r.mem[b].fd == f {
      var b :| b in s.mem && s.mem[b].fd == f;
      assert b in r.mem && r.mem[b].fd == f;
    }
  }

  lemma PutLogged(s: State, a: Addr, c: Conn, arm: bool)
    requires Logged(s) && Key(a, c.ts) in s.used
    requires if a in s.mem then s.mem[a].ts == c.ts && s.mem[a].timerId == c.timerId
             else c.timerId == 0 && forall i :: 0 <= i < |s.log| ==> s.log[i].key != Key(a, c.ts)
    ensures Logged(Put(s, a, c, arm))
  {
    PutLogGrows(s, a, c, arm);
    PutLogIsComplete(s, a, c, arm);
    hide LogGrows;
    hide LogIsComplete;
  }

  lemma PutLogGrows(s: State, a: Addr, c: Conn, arm: bool)
    requires LogGrows(s) && Key(a, c.ts) in s.used
    requires if a in s.mem then s.mem[a].ts == c.ts && s.mem[a].timerId == c.timerId
             else c.timerId == 0 && forall i :: 0 <= i < |s.log| ==> s.log[i].key != Key(a, c.ts)
    ensures LogGrows(Put(s, a, c, arm))
  {
    var r := Put(s, a, c, arm);
    var k := Key(a, c.ts);
    forall i | 0 <= i < |r.log| && Live(r, r.log[i].key) ensures r.log[i].id <= r.mem[r.log[i].key.addr].timerId {
      if i < |s.log| && r.log[i].key != k {
        assert Live(s, s.log[i].key);
      }
    }
    forall i, j | 0 <= i < j < |r.log| && r.log[i].key == r.log[j].key ensures r.log[i].id < r.log[j].id {
      if j == |s.log| {
        assert a in s.mem && Live(s, s.log[i].key);
      }
    }
  }

  lemma PutLogIsComplete(s: State, a: Addr, c: Conn, arm: bool)
    requires LogIsComplete(s)
    requires if a in s.mem then s.mem[a].ts == c.ts && s.mem[a].timerId == c.timerId else c.timerId == 0
    ensures LogIsComplete(Put(s, a, c, arm))
  {
    var r := Put(s, a, c, arm);
    var k := Key(a, c.ts);
    assert Due(r) == Due(s);
    assert s.log <= r.log;
    if arm {
      assert r.log[|s.log|] == TimerRec(k, c.timerId + 1);
    }
    forall x | x in Pending(r) ensures x in r.log {
      if x in Pending(s) {
        assert x in s.log;
      }
    }
    forall b | b in r.mem && r.mem[b].timerId > 0
      ensures TimerRec(Key(b, r.mem[b].ts), r.mem[b].timerId) in r.log
    {
      if b != a {
        assert TimerRec(Key(b, s.mem[b].ts), s.mem[b].timerId) in s.log;
      }
    }
  }

  lemma PutHistory(s: State, a: Addr, c: Conn, arm: bool)
    requires Key(a, c.ts) in s.used && Key(a, c.ts) !in s.closed && (a in s.mem ==> s.mem[a].ts == c.ts)
    requires forall b :: b in s.mem ==> Key(b, s.mem[b].ts) in s.used
    requires forall i :: 0 <= i < |s.closed| ==> s.closed[i] in s.used && !Live(s, s.closed[i])
    requires forall i, j :: 0 <= i < j < |s.closed| ==> s.closed[i] != s.closed[j]
    requires forall k :: k in s.used ==> Live(s, k) || k in s.closed || k == Key(a, c.ts)
    ensures History(Put(s, a, c, arm))
  {
    var r := Put(s, a, c, arm);
    forall i | 0 <= i < |r.closed| ensures !Live(r, r.closed[i]) {
      assert s.closed[i] != Key(a, c.ts);
    }
    forall k | k in r.used ensures Live(r, k) || k in r.closed {
      if Live(s, k) && k.addr == a {
        assert k == Key(a, c.ts);
      }
    }
  }

  lemma PutGenerations(cfg: Config, s: State, a: Addr, c: Conn, arm: bool)
    requires Generations(cfg, s) && Key(a, c.ts) in s.used
    requires if a in s.mem then s.mem[a].ts == c.ts && s.mem[a].timerId == c.timerId
             else c.timerId == 0 && (forall x :: x in Pending(s) ==> x.key != Key(a, c.ts)) && (cfg.readTimeout ==> arm)
    ensures Generations(cfg, Put(s, a, c, arm))
  {
    var r := Put(s, a, c, arm);
    var k := Key(a, c.ts);
    var rec := TimerRec(k, c.timerId + 1);
    assert Due(r) == Due(s);
    assert rec !in Pending(s) by {
      if rec in Pending(s) {
        assert Live(s, rec.key);
      }
    }
    assert Pending(r) == Pending(s) + if arm then {rec} else {};
    forall x | x in Pending(r) && Live(r, x.key) ensures 1 <= x.id <= r.mem[x.key.addr].timerId {
      if x != rec {
        assert Live(s, x.key);
      }
    }
    forall i | 0 <= i < |Due(r)| ensures Due(r)[i] !in r.timers {
      assert Due(s)[i] in Pending(s);
    }
  }

  lemma PutModes(cfg: Config, s: State, r: State, a: Addr)
    requires Modes(cfg, s) && a in r.mem && r.mem.Keys == s.mem.Keys + {a}
    requires forall b :: b in s.mem && b != a ==> r.mem[b] == s.mem[b]
    requires a in s.mem ==> s.mem[a].ts == r.mem[a].ts
    requires Reading(r.mem[a]) || Queued(r.mem[a]) || Writing(r.mem[a])
    requires Queued(r.mem[a]) <==> Key(a, r.mem[a].ts) in Work(r)
    requires forall k :: k != Key(a, r.mem[a].ts) ==> (k in Work(r) <==> k in Work(s))
    requires forall i, j :: 0 <= i < j < |Work(r)| ==> Work(r)[i] != Work(r)[j]
    requires Settled(r)
    ensures Modes(cfg, r)
  {
    forall k | k in Work(r) ensures Live(r, k) {
      if k != Key(a, r.mem[a].ts) {
        assert Live(s, k);
      }
    }
  }

  // ---------------------------------------------------------------- every step keeps the invariants

  /** The state in which an accepted connection is known but not yet there. */
  function Announced(s: State, fd: Fd, a: Addr, ts: int): State
  {
    s.(open := s.open + {fd}, channels := s.channels[a := ts], used := s.used + {Key(a, ts)})
  }

  function Fresh(fd: Fd, ts: int): Conn { Conn(fd, ts, EpollIn, EpollIn, 0, 0, NoCtx) }

  lemma AcceptMirror(s: State, fd: Fd, a: Addr, ts: int, arm: bool)
    requires Mirror(s) && a !in s.mem && fd !in s.open
    ensures fd !in s.kernel && Mirror(Put(Announced(s, fd, a, ts), a, Fresh(fd, ts), arm))
  {
    assert Mirror(Announced(s, fd, a, ts));
    PutMirror(Announced(s, fd, a, ts), a, Fresh(fd, ts), arm);
  }

  lemma AcceptHistory(s: State, fd: Fd, a: Addr, ts: int, arm: bool)
    requires History(s) && a !in s.mem && Key(a, ts) !in s.used
    ensures History(Put(Announced(s, fd, a, ts), a, Fresh(fd, ts), arm))
  {
    var s1 := Announced(s, fd, a, ts);
    assert forall k :: Live(s1, k) == Live(s, k);
    PutHistory(s1, a, Fresh(fd, ts), arm);
  }

  lemma AcceptTimers(cfg: Config, s: State, fd: Fd, a: Addr, ts: int)
    requires Generations(cfg, s) && Logged(s) && a !in s.mem && Key(a, ts) !in s.used
    ensures var r := Put(Announced(s, fd, a, ts), a, Fresh(fd, ts), cfg.readTimeout);
            Generations(cfg, r) && Logged(r)
  {
    AnnouncedGenerations(cfg, s, fd, a, ts);
    AnnouncedLogged(s, fd, a, ts);
    hide Generations;
    hide Logged;
    var s1 := Announced(s, fd, a, ts);
    PutGenerations(cfg, s1, a, Fresh(fd, ts), cfg.readTimeout);
    PutLogged(s1, a, Fresh(fd, ts), cfg.readTimeout);
  }

  lemma AnnouncedGenerations(cfg: Config, s: State, fd: Fd, a: Addr, ts: int)
    requires Generations(cfg, s) && a !in s.mem && Key(a, ts) !in s.used
    ensures Generations(cfg, Announced(s, fd, a, ts))
    ensures forall x :: x in Pending(Announced(s, fd, a, ts)) ==> x.key != Key(a, ts)
  {
    var s1 := Announced(s, fd, a, ts);
    assert Pending(s1) == Pending(s) && Due(s1) == Due(s);
    assert forall k :: Live(s1, k) == Live(s, k);
  }

  lemma AnnouncedLogged(s: State, fd: Fd, a: Addr, ts: int)
    requires Logged(s) && a !in s.mem && Key(a, ts) !in s.used
    ensures Logged(Announced(s, fd, a, ts))
    ensures forall i :: 0 <= i < |s.log| ==> s.log[i].key != Key(a, ts)
  {
    var s1 := Announced(s, fd, a, ts);
    assert Pending(s1) == Pending(s);
    assert forall k :: Live(s1, k) == Live(s, k);
  }

  lemma AcceptModes(cfg: Config, s: State, fd: Fd, a: Addr, ts: int, arm: bool)
    requires Modes(cfg, s) && a !in s.mem
    ensures Modes(cfg, Put(Announced(s, fd, a, ts), a, Fresh(fd, ts), arm))
  {
    var r := Put(Announced(s, fd, a, ts), a, Fresh(fd, ts), arm);
    assert Work(r) == Work(s);
    assert Key(a, ts) in Work(s) ==> Live(s, Key(a, ts));
    PutModes(cfg, s, r, a);
  }

  lemma AcceptRest(cfg: Config, s: State, fd: Fd, a: Addr, ts: int, arm: bool)
    requires Table(s) && Protocols(cfg, s) && Reported(s) && a !in s.mem
    ensures var r := Put(Announced(s, fd, a, ts), a, Fresh(fd, ts), arm);
            Table(r) && Protocols(cfg, r) && Reported(r)
  {
  }

  lemma AcceptKeeps(cfg: Config, s: State, fd: Fd, a: Addr, ts: int)
    requires Inv(cfg, s) && a !in s.mem && fd !in s.open && Key(a, ts) !in s.used
    ensures Inv(cfg, NewConnection(cfg, s, fd, a, ts))
  {
    hide Mirror;
    hide History;
    hide Generations;
    hide Logged;
    hide Modes;
    hide Table;
    hide Protocols;
    hide Reported;
    hide NewConnection;
    AcceptMirror(s, fd, a, ts, cfg.readTimeout);
    AcceptHistory(s, fd, a, ts, cfg.readTimeout);
    AcceptTimers(cfg, s, fd, a, ts);
    AcceptModes(cfg, s, fd, a, ts, cfg.readTimeout);
    AcceptRest(cfg, s, fd, a, ts, cfg.readTimeout);
    AcceptPuts(cfg, s, fd, a, ts);
  }

  /** `s1` is `s` up to the queue and the phase. */
  predicate SameButQueue(s: State, s1: State)
  {
    s1 == s.(funcs := s1.funcs, phase := s1.phase) && Due(s1) == Due(s)
  }

  predicate SameConn(c: Conn, d: Conn) { c.fd == d.fd && c.ts == d.ts && c.timerId == d.timerId }

  lemma LiveMirror(s: State, s1: State, a: Addr, c: Conn, arm: bool)
    requires Mirror(s) && a in s.mem && SameButQueue(s, s1) && SameConn(c, s.mem[a]) && !c.sevent.NoEvent?
    ensures Mirror(Put(s1, a, c, arm))
  {
    assert Mirror(s1);
    PutMirror(s1, a, c, arm);
  }

  lemma LiveHistory(s: State, s1: State, a: Addr, c: Conn, arm: bool)
    requires History(s) && a in s.mem && SameButQueue(s, s1) && SameConn(c, s.mem[a])
    ensures History(Put(s1, a, c, arm)) && Key(a, c.ts) in s.used
  {
    assert Live(s, Key(a, c.ts));
    assert forall x :: Live(s1, x) == Live(s, x);
    PutHistory(s1, a, c, arm);
  }

  lemma LiveTable(s: State, s1: State, a: Addr, c: Conn, arm: bool)
    requires Table(s) && a in s.mem && SameButQueue(s, s1) && SameConn(c, s.mem[a])
    ensures Table(Put(s1, a, c, arm)) && Put(s1, a, c, arm).fault == s.fault
  {
  }

  /** A put at the address of a live connection, in the same identity and on the same descriptor,
      keeps everything but the modes, which depend on the queue. */
  lemma PutKeeps(cfg: Config, s: State, s1: State, a: Addr, c: Conn, arm: bool)
    requires Inv(cfg, s) && a in s.mem && SameButQueue(s, s1) && SameConn(c, s.mem[a]) && !c.sevent.NoEvent?
    ensures var r := Put(s1, a, c, arm);
            !r.fault && Table(r) && Mirror(r) && History(r) && Generations(cfg, r) && Logged(r)
  {
    hide Mirror;
    hide History;
    hide Generations;
    hide Logged;
    hide Table;
    LiveMirror(s, s1, a, c, arm);
    LiveHistory(s, s1, a, c, arm);
    LiveTable(s, s1, a, c, arm);
    PutTimers(cfg, s, s1, a, c, arm);
  }

  lemma PutTimers(cfg: Config, s: State, s1: State, a: Addr, c: Conn, arm: bool)
    requires Generations(cfg, s) && Logged(s) && a in s.mem && Key(a, c.ts) in s.used
    requires SameButQueue(s, s1) && SameConn(c, s.mem[a])
    ensures Generations(cfg, Put(s1, a, c, arm)) && Logged(Put(s1, a, c, arm))
  {
    QueueTimers(cfg, s, s1);
    hide Generations;
    hide Logged;
    PutGenerations(cfg, s1, a, c, arm);
    PutLogged(s1, a, c, arm);
  }

  /** The head of the event list has been taken. */
  function Popped(s: State): State
    requires s.phase.Handling? && s.phase.events != []
  {
    s.(phase := Handling(s.phase.events[1..]))
  }

  lemma QueueMirror(s: State, s1: State)
    requires Mirror(s) && SameButQueue(s, s1)
    ensures Mirror(s1)
  {
  }

  lemma QueueHistory(s: State, s1: State)
    requires History(s) && SameButQueue(s, s1)
    ensures History(s1)
  {
    assert forall x :: Live(s1, x) == Live(s, x);
  }

  lemma QueueTimers(cfg: Config, s: State, s1: State)
    requires Generations(cfg, s) && Logged(s) && SameButQueue(s, s1)
    ensures Generations(cfg, s1) && Logged(s1)
  {
    assert Pending(s1) == Pending(s);
    assert forall x :: Live(s1, x) == Live(s, x);
  }

  lemma QueueModes(cfg: Config, s: State, s1: State)
    requires Modes(cfg, s) && s1.mem == s.mem && Work(s1) == Work(s) && Settled(s1)
    ensures Modes(cfg, s1)
  {
    assert forall x :: Live(s1, x) == Live(s, x);
  }

  /** A change of phase that keeps the work and the timers keeps the invariants, if the events do. */
  lemma PhaseKeeps(cfg: Config, s: State, s1: State)
    requires Inv(cfg, s) && SameButQueue(s, s1) && Work(s1) == Work(s)
    requires Reported(s1) && Settled(s1)
    ensures Inv(cfg, s1)
  {
    hide Mirror;
    hide History;
    hide Generations;
    hide Logged;
    hide Modes;
    hide Reported;
    QueueMirror(s, s1);
    QueueHistory(s, s1);
    QueueTimers(cfg, s, s1);
    QueueModes(cfg, s, s1);
  }

  lemma PoppedKeeps(cfg: Config, s: State)
    requires Inv(cfg, s) && s.phase.Handling? && s.phase.events != []
    ensures Inv(cfg, Popped(s))
    ensures forall i :: 0 <= i < |Popped(s).phase.events| ==> Popped(s).phase.events[i].addr != s.phase.events[0].addr
  {
    hide Mirror;
    hide History;
    hide Generations;
    hide Logged;
    hide Modes;
    PhaseKeeps(cfg, s, Popped(s));
  }

  // ---------------------------------------------------------------- handling one event

  /** No event is left for the connection at `a`. */
  predicate NoEventFor(s: State, a: Addr)
  {
    s.phase.Handling? && forall i :: 0 <= i < |s.phase.events| ==> s.phase.events[i].addr != a
  }

  lemma CloseKeeps(cfg: Config, s: State, a: Addr)
    requires Inv(cfg, s) && a in s.mem && !Queued(s.mem[a]) && (s.phase.Handling? ==> NoEventFor(s, a))
    ensures Inv(cfg, Close(s, a)) && Close(s, a) == Removed(s, a)
  {
    CloseRemoves(s, a);
    hide Close;
    hide Removed;
    RemovedKeeps(cfg, s, a);
  }

  lemma ReportedPut(s: State, r: State, a: Addr)
    requires Reported(s) && NoEventFor(s, a) && r.phase == s.phase
    requires r.mem.Keys == s.mem.Keys && forall b :: b in s.mem && b != a ==> r.mem[b] == s.mem[b]
    ensures Reported(r)
  {
  }

  /** The work with and without the identity `k`. */
  ghost predicate SameWorkBut(s: State, s1: State, k: Key)
  {
    && (forall x :: x != k ==> (x in Work(s1) <==> x in Work(s)))
    && (forall i, j :: 0 <= i < j < |Work(s1)| ==> Work(s1)[i] != Work(s1)[j])
  }

  lemma PutWork(cfg: Config, s: State, s1: State, a: Addr, c: Conn, arm: bool)
    requires Modes(cfg, s) && a in s.mem && SameButQueue(s, s1) && SameConn(c, s.mem[a])
    requires Reading(c) || Queued(c) || Writing(c)
    requires (Queued(c) <==> Key(a, c.ts) in Work(s1)) && SameWorkBut(s, s1, Key(a, c.ts))
    requires Settled(s1)
    ensures Modes(cfg, Put(s1, a, c, arm))
  {
    PutModes(cfg, s, Put(s1, a, c, arm), a);
  }

  lemma PutRest(cfg: Config, s: State, s1: State, a: Addr, c: Conn, arm: bool)
    requires Protocols(cfg, s) && Reported(s) && a in s.mem && SameButQueue(s, s1)
    requires !c.ctx.NoCtx? ==> c.ctx.proto == c.protoIdx < cfg.protocols
    requires s1.phase.Handling? ==> s1.phase == s.phase && NoEventFor(s, a)
    ensures Protocols(cfg, Put(s1, a, c, arm)) && Reported(Put(s1, a, c, arm))
  {
    if s1.phase.Handling? {
      ReportedPut(s, Put(s1, a, c, arm), a);
    }
  }

  /** A put at a live address whose new mode agrees with the queue keeps all invariants. */
  lemma LivePut(cfg: Config, s: State, s1: State, a: Addr, c: Conn, arm: bool)
    requires Inv(cfg, s) && a in s.mem && SameButQueue(s, s1) && SameConn(c, s.mem[a])
    requires Reading(c) || Queued(c) || Writing(c)
    requires (Queued(c) <==> Key(a, c.ts) in Work(s1)) && SameWorkBut(s, s1, Key(a, c.ts))
    requires Settled(s1)
    requires !c.ctx.NoCtx? ==> c.ctx.proto == c.protoIdx < cfg.protocols
    requires s1.phase.Handling? ==> s1.phase == s.phase && NoEventFor(s, a)
    ensures Inv(cfg, Put(s1, a, c, arm))
  {
    hide Mirror;
    hide History;
    hide Generations;
    hide Logged;
    hide Modes;
    hide Table;
    hide Protocols;
    hide Reported;
    hide SameWorkBut;
    PutKeeps(cfg, s, s1, a, c, arm);
    PutWork(cfg, s, s1, a, c, arm);
    PutRest(cfg, s, s1, a, c, arm);
  }

  /** What the invariants say about one connection. */
  lemma About(cfg: Config, s: State, a: Addr)
    requires Inv(cfg, s) && a in s.mem
    ensures var c := s.mem[a];
            && c.fd in s.kernel && s.kernel[c.fd] == c.sevent && !c.sevent.NoEvent?
            && (Reading(c) || Queued(c) || Writing(c))
            && (Queued(c) <==> Key(a, c.ts) in Work(s))
            && (!c.ctx.NoCtx? ==> c.ctx.proto == c.protoIdx < cfg.protocols)
            && SameWorkBut(s, s, Key(a, c.ts))
            && Settled(s)
  {
  }

  lemma PartialKeeps(cfg: Config, s: State, a: Addr, idx: nat, made: bool)
    requires Inv(cfg, s) && a in s.mem && Reading(s.mem[a]) && NoEventFor(s, a) && ProtocolOk(cfg, s.mem[a], idx)
    ensures Inv(cfg, Readable(cfg, s, a, Partial(idx, made)))
  {
    hide Inv;
    var c := s.mem[a];
    var c1 := c.(protoIdx := idx, ctx := if made then Parsing(idx) else c.ctx);
    About(cfg, s, a);
    assert s.kernel[c.fd := c.sevent] == s.kernel;
    assert Readable(cfg, s, a, Partial(idx, made)) == Put(s, a, c1, false);
    LivePut(cfg, s, s, a, c1, false);
  }

  lemma RespondKeeps(cfg: Config, s: State, a: Addr, idx: nat, short: bool)
    requires Inv(cfg, s) && a in s.mem && Reading(s.mem[a]) && NoEventFor(s, a) && ProtocolOk(cfg, s.mem[a], idx)
    ensures Inv(cfg, Respond(cfg, s, a, idx, short))
  {
    hide Inv;
    var c := s.mem[a];
    var k := Key(a, c.ts);
    var s1 := s.(funcs := s.funcs + [k]);
    var c1 := c.(protoIdx := idx, ctx := Responding(idx, short), event := EpollOut);
    About(cfg, s, a);
    RespondPuts(cfg, s, a, idx, short);
    assert Work(s1) == Work(s) + [k];
    assert Work(s1)[|Work(s)|] == k;
    LivePut(cfg, s, s1, a, c1, cfg.writeTimeout);
  }

  lemma WriteCompleteKeeps(cfg: Config, s: State, a: Addr)
    requires Inv(cfg, s) && a in s.mem && Writing(s.mem[a]) && NoEventFor(s, a)
    ensures Inv(cfg, WriteComplete(cfg, s, a))
  {
    if s.mem[a].ctx.short {
      ShortCloses(cfg, s, a);
    } else {
      hide Inv;
      var c := s.mem[a];
      About(cfg, s, a);
      ReArmPuts(cfg, s, a);
      LivePut(cfg, s, s, a, c.(event := EpollIn, sevent := EpollIn, ctx := NoCtx), cfg.readTimeout);
    }
  }

  lemma ShortCloses(cfg: Config, s: State, a: Addr)
    requires Inv(cfg, s) && a in s.mem && Writing(s.mem[a]) && s.mem[a].ctx.short && NoEventFor(s, a)
    ensures Inv(cfg, WriteComplete(cfg, s, a))
  {
    TableOf(cfg, s);
    About(cfg, s, a);
    hide Inv;
    CloseKeeps(cfg, s, a);
    WriteCloses(cfg, s, a);
  }

  /** Closing does not look at the context. */
  lemma WriteCloses(cfg: Config, s: State, a: Addr)
    requires a in s.mem && Writing(s.mem[a]) && s.mem[a].ctx.short && s.mem[a].fd in s.kernel && Table(s)
    ensures WriteComplete(cfg, s, a) == Removed(s, a)
  {
    var s1 := s.(mem := s.mem[a := s.mem[a].(ctx := NoCtx)]);
    assert WriteComplete(cfg, s, a) == Close(s1, a) by { hide Close; }
    hide WriteComplete;
    CloseRemoves(s1, a);
    hide Close;
    assert s1.mem - {a} == s.mem - {a};
  }

  lemma TableOf(cfg: Config, s: State)
    requires Inv(cfg, s)
    ensures Table(s)
  {
  }

  lemma EventFacts(cfg: Config, s: State)
    requires Inv(cfg, s) && s.phase.Handling? && s.phase.events != []
    ensures var ev := s.phase.events[0];
            ev.addr in s.mem && (ev.inn ==> Reading(s.mem[ev.addr])) && (ev.out ==> Writing(s.mem[ev.addr]))
  {
    assert Reported(s);
  }

  lemma DispatchKeeps(cfg: Config, s: State, o: Outcome, sent: Sent)
    requires Inv(cfg, s) && s.phase.Handling? && s.phase.events != []
    requires s.phase.events[0].addr in s.mem ==> Possible(cfg, s.mem[s.phase.events[0].addr], o)
    ensures Inv(cfg, Dispatch(cfg, s, o, sent))
  {
    hide Inv;
    var ev := s.phase.events[0];
    var a := ev.addr;
    var s1 := Popped(s);
    EventFacts(cfg, s);
    PoppedKeeps(cfg, s);
    if ev.inn {
      match o
      case Partial(idx, made) => PartialKeeps(cfg, s1, a, idx, made);
      case Served(idx, short) => RespondKeeps(cfg, s1, a, idx, short);
      case Crashed => PhaseKeeps(cfg, s1, s1.(phase := Down));
      case _ => CloseKeeps(cfg, s1, a);
    } else if ev.out && sent.Complete? {
      WriteCompleteKeeps(cfg, s1, a);
    } else if ev.out && sent.Fatal? {
      PhaseKeeps(cfg, s1, s1.(phase := Down));
    }
  }

  // ---------------------------------------------------------------- the other steps

  lemma ReturnKeeps(cfg: Config, s: State, events: seq<Event>)
    requires Inv(cfg, s) && Enabled(cfg, s, EpollReturns(events))
    ensures Inv(cfg, s.(phase := Handling(events)))
  {
    var s1 := s.(phase := Handling(events));
    forall i | 0 <= i < |events|
      ensures events[i].inn ==> Reading(s.mem[events[i].addr])
      ensures events[i].out ==> Writing(s.mem[events[i].addr])
    {
      About(cfg, s, events[i].addr);
      assert Work(s) == [];
    }
    assert Reported(s1);
    hide Inv;
    PhaseKeeps(cfg, s, s1);
  }

  lemma SwapKeeps(cfg: Config, s: State)
    requires Inv(cfg, s) && s.phase.Handling?
    ensures Inv(cfg, s.(phase := RunFuncs(s.funcs), funcs := []))
  {
    hide Inv;
    PhaseKeeps(cfg, s, s.(phase := RunFuncs(s.funcs), funcs := []));
  }

  lemma FuncKeeps(cfg: Config, s: State)
    requires Inv(cfg, s) && s.phase.RunFuncs? && s.phase.batch != []
    ensures Live(s, s.phase.batch[0]) && Queued(s.mem[s.phase.batch[0].addr])
    ensures Inv(cfg, Next(cfg, s, NextFunc))
  {
    hide Inv;
    var k := s.phase.batch[0];
    var s1 := s.(phase := RunFuncs(s.phase.batch[1..]));
    FuncFacts(cfg, s);
    var a, c := k.addr, s.mem[k.addr];
    About(cfg, s, a);
    assert Work(s) == s.phase.batch && Work(s1) == s.phase.batch[1..];
    assert Work(s) == [k] + Work(s1);
    assert UpdateChannel(s1, a) == Put(s1, a, c.(sevent := EpollOut), false);
    LivePut(cfg, s, s1, a, c.(sevent := EpollOut), false);
  }

  lemma FuncFacts(cfg: Config, s: State)
    requires Inv(cfg, s) && s.phase.RunFuncs? && s.phase.batch != []
    ensures s.funcs == [] && Live(s, s.phase.batch[0]) && Queued(s.mem[s.phase.batch[0].addr])
    ensures forall i, j :: 0 <= i < j < |s.phase.batch| ==> s.phase.batch[i] != s.phase.batch[j]
  {
    assert Modes(cfg, s);
    assert Work(s) == s.phase.batch;
    assert s.phase.batch[0] in Work(s);
  }

  lemma DrainTimersOnly(cfg: Config, s: State, due: seq<TimerRec>)
    requires Generations(cfg, s) && Logged(s) && s.phase.RunFuncs?
    requires Enabled(cfg, s, DrainTimers(due))
    ensures var r := s.(phase := RunTimers(due), timers := s.timers - set x | x in due);
            Generations(cfg, r) && Logged(r)
  {
    var r := s.(phase := RunTimers(due), timers := s.timers - set x | x in due);
    assert Pending(r) == s.timers == Pending(s);
    assert forall x :: Live(r, x) == Live(s, x);
  }

  lemma DrainKeeps(cfg: Config, s: State, due: seq<TimerRec>)
    requires Inv(cfg, s) && Enabled(cfg, s, DrainTimers(due))
    ensures Inv(cfg, Next(cfg, s, DrainTimers(due)))
  {
    var r := s.(phase := RunTimers(due), timers := s.timers - set x | x in due);
    About0(cfg, s);
    assert Generations(cfg, r) && Logged(r) by { DrainTimersOnly(cfg, s, due); }
    hide Inv;
    TimersKeep(cfg, s, r);
  }

  /** A change of timers and phase that keeps generations and log keeps the rest. */
  lemma TimersKeep(cfg: Config, s: State, r: State)
    requires Inv(cfg, s) && r == s.(phase := r.phase, timers := r.timers) && s.funcs == [] && Work(r) == Work(s)
    requires !r.phase.Handling? && Generations(cfg, r) && Logged(r)
    ensures Inv(cfg, r)
  {
    hide Generations;
    hide Logged;
    hide Modes;
    hide Mirror;
    hide History;
    QueueModes(cfg, s, r);
    MirrorSame(s, r);
    HistorySame(s, r);
  }

  lemma MirrorSame(s: State, r: State)
    requires Mirror(s) && r.mem == s.mem && r.kernel == s.kernel && r.open == s.open
    ensures Mirror(r)
  {
  }

  lemma HistorySame(s: State, r: State)
    requires History(s) && r.mem == s.mem && r.used == s.used && r.closed == s.closed
    ensures History(r)
  {
    assert forall x :: Live(r, x) == Live(s, x);
  }

  /** A due timer that is not the current one of a live connection can be dropped. */
  lemma DueTimersOnly(cfg: Config, s: State)
    requires Generations(cfg, s) && Logged(s) && s.phase.RunTimers? && s.phase.due != []
    requires var rec := s.phase.due[0]; Live(s, rec.key) ==> s.mem[rec.key.addr].timerId != rec.id
    ensures var r := s.(phase := RunTimers(s.phase.due[1..])); Generations(cfg, r) && Logged(r)
  {
    var r := s.(phase := RunTimers(s.phase.due[1..]));
    var rec := s.phase.due[0];
    assert Due(s) == [rec] + Due(r);
    assert Pending(s) == Pending(r) + {rec};
    assert forall x :: Live(r, x) == Live(s, x);
    forall i | 0 <= i < |Due(r)| ensures Due(r)[i] !in r.timers {
      assert Due(r)[i] == Due(s)[i + 1];
    }
    forall i, j | 0 <= i < j < |Due(r)| ensures Due(r)[i] != Due(r)[j] {
      assert Due(r)[i] == Due(s)[i + 1] && Due(r)[j] == Due(s)[j + 1];
    }
    forall a | a in r.mem && r.mem[a].timerId > 0
      ensures TimerRec(Key(a, r.mem[a].ts), r.mem[a].timerId) in Pending(r)
    {
      assert TimerRec(Key(a, s.mem[a].ts), s.mem[a].timerId) in Pending(s);
    }
  }

  lemma DueKeeps(cfg: Config, s: State)
    requires Inv(cfg, s) && s.phase.RunTimers? && s.phase.due != []
    requires var rec := s.phase.due[0]; Live(s, rec.key) ==> s.mem[rec.key.addr].timerId != rec.id
    ensures Inv(cfg, s.(phase := RunTimers(s.phase.due[1..])))
  {
    var r := s.(phase := RunTimers(s.phase.due[1..]));
    About0(cfg, s);
    assert Generations(cfg, r) && Logged(r) by { DueTimersOnly(cfg, s); }
    hide Inv;
    TimersKeep(cfg, s, r);
  }

  /** A due timer closes its connection exactly when it is live and the timer is its current one. */
  lemma TimerKeeps(cfg: Config, s: State)
    requires Inv(cfg, s) && s.phase.RunTimers? && s.phase.due != []
    ensures var rec := s.phase.due[0];
            var r := Next(cfg, s, NextTimer);
            && Inv(cfg, r)
            && (if Live(s, rec.key) && s.mem[rec.key.addr].timerId == rec.id
                then r == Removed(s, rec.key.addr).(phase := r.phase)
                else r == s.(phase := r.phase))
  {
    var rec := s.phase.due[0];
    var s1 := s.(phase := RunTimers(s.phase.due[1..]));
    assert Next(cfg, s, NextTimer) == Timeout(s1, rec) by { hide Inv; hide Timeout; }
    TableOf(cfg, s);
    hide Next;
    hide Enabled;
    if Live(s, rec.key) && s.mem[rec.key.addr].timerId == rec.id {
      TimerCloses(cfg, s);
      hide Inv;
    } else {
      DueKeeps(cfg, s);
      hide Inv;
      TimerSkips(s1, rec);
    }
  }

  lemma TimerSkips(s: State, rec: TimerRec)
    requires Table(s) && !(Live(s, rec.key) && s.mem[rec.key.addr].timerId == rec.id)
    ensures Timeout(s, rec) == s
  {
  }

  lemma TimerCloses(cfg: Config, s: State)
    requires Inv(cfg, s) && s.phase.RunTimers? && s.phase.due != []
    requires var rec := s.phase.due[0]; Live(s, rec.key) && s.mem[rec.key.addr].timerId == rec.id
    ensures var s1 := s.(phase := RunTimers(s.phase.due[1..]));
            var r := Timeout(s1, s.phase.due[0]);
            Inv(cfg, r) && r == Removed(s, s.phase.due[0].key.addr).(phase := s1.phase)
  {
    var rec := s.phase.due[0];
    var a := rec.key.addr;
    var s1 := s.(phase := RunTimers(s.phase.due[1..]));
    TableOf(cfg, s);
    About(cfg, s, a);
    IdleInTimers(cfg, s);
    CloseKeeps(cfg, s, a);
    hide Inv;
    assert Timeout(s1, rec) == Close(s1, a) by { hide Close; }
    CloseRemoves(s1, a);
    hide Close;
    assert Removed(s1, a) == Removed(s, a).(phase := s1.phase);
    DueKeeps(cfg, Removed(s, a));
  }

  lemma IdleInTimers(cfg: Config, s: State)
    requires Inv(cfg, s) && s.phase.RunTimers?
    ensures Work(s) == []
  {
  }

  lemma RoundKeeps(cfg: Config, s: State)
    requires Inv(cfg, s) && s.phase.RunTimers? && s.phase.due == []
    ensures Inv(cfg, s.(phase := Waiting))
  {
    hide Inv;
    About0(cfg, s);
    PhaseKeeps(cfg, s, s.(phase := Waiting));
  }

  lemma About0(cfg: Config, s: State)
    requires Inv(cfg, s)
    ensures Settled(s)
  {
  }
}
