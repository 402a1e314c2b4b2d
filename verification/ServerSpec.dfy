/** The life cycle of server connections (net/pb_server.cpp, net/tcpconnection.cpp) on one loop,
    with services that run `done` synchronously.

Connections are objects at addresses: `delete` frees an address, `new` may reuse it.  Every
dereference of a connection that is not allocated, every `epoll_ctl` that the kernel would refuse
and every use of a null context sets `fault`. */
module ServerSpec {
  import BufferSpec
  import Lanes

  type Addr = nat
  type Fd = nat

  /** A set of registered events. */
  datatype Mask = NoEvent | EpollIn | EpollOut

  /** The context pointer of a connection; `Responding` means that a response has been packed. */
  datatype Context = NoCtx | Parsing(proto: nat) | Responding(proto: nat, short: bool)

  /** The fields of `TCPConnection` that the callbacks use. */
  datatype Conn = Conn(fd: Fd, ts: int, event: Mask, sevent: Mask, timerId: nat, protoIdx: nat, ctx: Context)

  /** A connection's only identity: its address and the time stamp of its construction. */
  datatype Key = Key(addr: Addr, ts: int)

  /** The arguments bound into a timeout callback. */
  datatype TimerRec = TimerRec(key: Key, id: nat)

  /** An event that `epoll_wait` reported for a connection. */
  datatype Event = Event(addr: Addr, inn: bool, out: bool)

  datatype Phase =
    | Waiting
    | Handling(events: seq<Event>)
    | RunFuncs(batch: seq<Key>)         // update_channel for these connections
    | RunTimers(due: seq<TimerRec>)
    | Down                              // an exception or an abort has ended the process

  /** The timeouts that are switched on, and the number of protocols. */
  datatype Config = Config(readTimeout: bool, writeTimeout: bool, protocols: nat)

  /** `used`, `closed` and `log` are history: identities ever used, connections closed, timers armed. */
  datatype State = State(
    mem: map<Addr, Conn>,
    channels: map<Addr, int>,
    kernel: map<Fd, Mask>,
    open: set<Fd>,
    funcs: seq<Key>,
    timers: set<TimerRec>,
    phase: Phase,
    fault: bool,
    used: set<Key>,
    closed: seq<Key>,
    log: seq<TimerRec>)

  const INIT := State(map[], map[], map[], {}, [], {}, Waiting, false, {}, [], [])

  // ---------------------------------------------------------------- operations of the loop

  /** `update_channel` with `_epoll_ctl` */
  function UpdateChannel(s: State, a: Addr): State
  {
    if a !in s.mem then s.(fault := true) else
    var c := s.mem[a];
    if c.sevent == c.event then s
    else if c.sevent.NoEvent? then          // EPOLL_CTL_ADD
      if c.fd in s.kernel || c.fd !in s.open then s.(fault := true)
      else s.(kernel := s.kernel[c.fd := c.event], mem := s.mem[a := c.(sevent := c.event)])
    else if c.fd !in s.kernel then s.(fault := true)
    else if c.event.NoEvent? then           // EPOLL_CTL_DEL
      s.(kernel := s.kernel - {c.fd}, mem := s.mem[a := c.(sevent := NoEvent)])
    else                                    // EPOLL_CTL_MOD
      s.(kernel := s.kernel[c.fd := c.event], mem := s.mem[a := c.(sevent := c.event)])
  }

  function SetEvent(s: State, a: Addr, m: Mask): State
  {
    if a !in s.mem then s.(fault := true) else s.(mem := s.mem[a := s.mem[a].(event := m)])
  }

  /** `remove_channel` */
  function RemoveChannel(s: State, a: Addr, ts: int): State
  {
    if a in s.channels && s.channels[a] == ts then s.(channels := s.channels - {a}) else s
  }

  /** `has_channel` */
  predicate HasChannel(s: State, a: Addr, ts: int) { a in s.channels && s.channels[a] == ts }

  /** `timer_id.fetch_add(1)` and `run_after` */
  function Arm(s: State, a: Addr): State
  {
    if a !in s.mem then s.(fault := true) else
    var c := s.mem[a];
    var rec := TimerRec(Key(a, c.ts), c.timerId + 1);
    s.(mem := s.mem[a := c.(timerId := c.timerId + 1)], timers := s.timers + {rec}, log := s.log + [rec])
  }

  // ---------------------------------------------------------------- callbacks of the server

  /** `close_callback`: unregister, `::close`, remove from the table, `delete`. */
  function Close(s: State, a: Addr): State
  {
    if a !in s.mem then s.(fault := true) else
    var s1 := UpdateChannel(SetEvent(s, a, NoEvent), a);
    var c := s.mem[a];
    var s2 := s1.(open := s1.open - {c.fd}, kernel := s1.kernel - {c.fd});
    var s3 := RemoveChannel(s2, a, c.ts);
    s3.(mem := s3.mem - {a}, closed := s3.closed + [Key(a, c.ts)])
  }

  /** `new_connection_callback` for the accepted descriptor `fd` and a fresh object. */
  function NewConnection(cfg: Config, s: State, fd: Fd, a: Addr, ts: int): State
  {
    var s1 := s.(mem := s.mem[a := Conn(fd, ts, NoEvent, NoEvent, 0, 0, NoCtx)], open := s.open + {fd},
                 channels := s.channels[a := ts], used := s.used + {Key(a, ts)});
    var s2 := UpdateChannel(SetEvent(s1, a, EpollIn), a);
    if cfg.readTimeout then Arm(s2, a) else s2
  }

  /** What comes of a readable connection: end of file; no protocol left; a parse error; not enough
      data (with or without a context made); a request without a usable service; a request served;
      the end of the process, by an exception, which nothing between the parser and `main` catches, or
      by an error of `::read` other than would-block. */
  datatype Outcome =
    | Eof
    | Exhausted
    | Failed(idx: nat)
    | Partial(idx: nat, made: bool)
    | Rejected(idx: nat)
    | Served(idx: nat, short: bool)
    | Crashed

  /** `response_callback`, run inside `request_callback` */
  function Respond(cfg: Config, s: State, a: Addr, idx: nat, short: bool): State
  {
    if a !in s.mem then s.(fault := true) else
    var c := s.mem[a];
    var s1 := s.(mem := s.mem[a := c.(protoIdx := idx, ctx := Responding(idx, short))]);
    var s2 := SetEvent(s1, a, EpollOut);
    var s3 := s2.(funcs := s2.funcs + [Key(a, c.ts)]);
    if cfg.writeTimeout then Arm(s3, a) else s3
  }

  /** `handle_events` on EPOLLIN: `read_fd`, then `close_callback` or `data_read_callback`. */
  function Readable(cfg: Config, s: State, a: Addr, o: Outcome): State
  {
    match o
    case Eof => Close(s, a)
    case Exhausted => Close(s, a)
    case Failed(_) => Close(s, a)
    case Rejected(_) => Close(s, a)
    case Partial(idx, made) =>
      if a !in s.mem then s.(fault := true) else
      var c := s.mem[a];
      s.(mem := s.mem[a := c.(protoIdx := idx, ctx := if made then Parsing(idx) else c.ctx)])
    case Served(idx, short) => Respond(cfg, s, a, idx, short)
    case Crashed => s.(phase := Down)
  }

  /** `write_complete_callback` */
  function WriteComplete(cfg: Config, s: State, a: Addr): State
  {
    if a !in s.mem || !s.mem[a].ctx.Responding? then s.(fault := true) else
    var c := s.mem[a];
    var s1 := s.(mem := s.mem[a := c.(ctx := NoCtx)]);
    if c.ctx.short then Close(s1, a) else
    var s2 := UpdateChannel(SetEvent(s1, a, EpollIn), a);
    if cfg.readTimeout then Arm(s2, a) else s2
  }

  /** `timeout_callback` */
  function Timeout(s: State, rec: TimerRec): State
  {
    if !HasChannel(s, rec.key.addr, rec.key.ts) then s
    else if rec.key.addr !in s.mem then s.(fault := true)
    else if s.mem[rec.key.addr].timerId == rec.id then Close(s, rec.key.addr)
    else s
  }

  /** What comes of writing to a connection: the completion test fails or holds, or an error of
      `::write` aborts the process. */
  datatype Sent = Incomplete | Complete | Fatal

  /** `handle_events` on the next reported event. */
  function Dispatch(cfg: Config, s: State, o: Outcome, sent: Sent): State
    requires s.phase.Handling? && s.phase.events != []
  {
    var ev := s.phase.events[0];
    var s1 := s.(phase := Handling(s.phase.events[1..]));
    if ev.addr !in s.mem then s1.(fault := true)
    else if ev.inn then Readable(cfg, s1, ev.addr, o)
    else if ev.out && sent.Complete? then WriteComplete(cfg, s1, ev.addr)
    else if ev.out && sent.Fatal? then s1.(phase := Down)
    else s1
  }

  // ---------------------------------------------------------------- steps

  /** The write buffer of the connection and the results of the writes, for an event that says that
      it is writable. */
  datatype Output = Output(wbuf: BufferSpec.Storage, w1: Lanes.WriteResult, w2: Lanes.WriteResult) {
    predicate Offered() { wbuf.Valid() && Lanes.Offered(wbuf, w1, w2) }

    /** `write_fd`, and the test that leads to `write_complete_callback`. */
    function Sent(): Sent
      requires Offered()
    {
      if Lanes.WriteFd(wbuf, w1, w2).Aborted? then Fatal
      else if Lanes.TestHolds(wbuf, w1, w2) then Complete
      else Incomplete
    }
  }

  datatype Step =
    | EpollReturns(events: seq<Event>)
    | Accept(fd: Fd, addr: Addr, ts: int)
    | HandleNext(o: Outcome, out: Output)
    | SwapFuncs
    | NextFunc
    | DrainTimers(due: seq<TimerRec>)
    | NextTimer
    | EndRound

  /** Reported events concern registered connections, each once, and only registered directions. */
  ghost predicate Reportable(s: State, events: seq<Event>)
  {
    && (forall i, j :: 0 <= i < j < |events| ==> events[i].addr != events[j].addr)
    && (forall i :: 0 <= i < |events| ==>
          var ev := events[i];
          && ev.addr in s.mem && s.mem[ev.addr].fd in s.kernel
          && (ev.inn ==> s.kernel[s.mem[ev.addr].fd].EpollIn?)
          && (ev.out ==> s.kernel[s.mem[ev.addr].fd].EpollOut?))
  }

  /** What the protocols can answer: the index does not fall, and a connection that has a context
      stays with its protocol (see module Selection). */
  predicate Possible(cfg: Config, c: Conn, o: Outcome)
  {
    match o
    case Eof => true
    case Exhausted => c.ctx.NoCtx?
    case Failed(idx) => ProtocolOk(cfg, c, idx)
    case Partial(idx, made) => ProtocolOk(cfg, c, idx)
    case Rejected(idx) => ProtocolOk(cfg, c, idx)
    case Served(idx, _) => ProtocolOk(cfg, c, idx)
    case Crashed => true
  }

  predicate ProtocolOk(cfg: Config, c: Conn, idx: nat)
  {
    c.protoIdx <= idx < cfg.protocols && (!c.ctx.NoCtx? ==> idx == c.protoIdx)
  }

  ghost predicate Enabled(cfg: Config, s: State, step: Step)
  {
    match step
    case EpollReturns(events) => s.phase.Waiting? && Reportable(s, events)
    case Accept(fd, a, ts) => s.phase.Handling? && a !in s.mem && fd !in s.open && Key(a, ts) !in s.used
    case HandleNext(o, out) =>
      && s.phase.Handling? && s.phase.events != [] && out.Offered()
      && (s.phase.events[0].addr in s.mem ==> Possible(cfg, s.mem[s.phase.events[0].addr], o))
    case SwapFuncs => s.phase.Handling? && s.phase.events == []
    case NextFunc => s.phase.RunFuncs? && s.phase.batch != []
    case DrainTimers(due) =>
      && s.phase.RunFuncs? && s.phase.batch == []
      && (forall i :: 0 <= i < |due| ==> due[i] in s.timers)
      && (forall i, j :: 0 <= i < j < |due| ==> due[i] != due[j])
    case NextTimer => s.phase.RunTimers? && s.phase.due != []
    case EndRound => s.phase.RunTimers? && s.phase.due == []
  }

  ghost function Next(cfg: Config, s: State, step: Step): State
    requires Enabled(cfg, s, step)
  {
    match step
    case EpollReturns(events) => s.(phase := Handling(events))
    case Accept(fd, a, ts) => NewConnection(cfg, s, fd, a, ts)
    case HandleNext(o, out) => Dispatch(cfg, s, o, out.Sent())
    case SwapFuncs => s.(phase := RunFuncs(s.funcs), funcs := [])
    case NextFunc => UpdateChannel(s.(phase := RunFuncs(s.phase.batch[1..])), s.phase.batch[0].addr)
    case DrainTimers(due) => s.(phase := RunTimers(due), timers := s.timers - (set r | r in due))
    case NextTimer => Timeout(s.(phase := RunTimers(s.phase.due[1..])), s.phase.due[0])
    case EndRound => s.(phase := Waiting)
  }
}
