/** End to end, exactly once: a keep-alive connection on which the client sends each request after
    the response to the one before.  The claim runs over the buffers of both sides: packing into the
    cleared storage, `write_fd` call by call, the network, parsing, and the clearing for the next round. */
module EndToEnd {
  import opened Bytes
  import opened Protocol
  import opened Selection
  import opened Delivery
  import opened Exchange
  import opened BufferSpec
  import opened Lanes
  import S = SimpleSpec
  import Http
  import Simple

  type Writes = seq<(WriteResult, WriteResult)>

  /** One round: the results of the writes of both sides, and how the network cuts the two messages,
      with the stale bytes behind each piece. */
  datatype Round = Round(clientWrites: Writes, request: Arrivals, serverWrites: Writes, response: Arrivals)

  // ---------------------------------------------------------------- one side sends

  /** The storage after packing into a cleared buffer. */
  function Filled(b: Storage, packet: Packet): (r: Storage)
    requires b.Valid() && AppendsFit(Clear(b), packet.pieces)
    ensures r.Valid()
  {
    AppendAllGrows(Clear(b), packet.pieces);
    Packed(Clear(b), packet.pieces, packet.payload)
  }

  /** The bytes that a run of writes puts on the wire. */
  function OnWire(b: Storage, ws: Writes): Bytes
    requires b.Valid() && OfferedRun(b, ws)
  {
    BytesOf(b, RunWire(b, ws))
  }

  /** What is to be sent from a buffer that has just been filled. */
  lemma FilledMessage(b: Storage, packet: Packet)
    requires b.Valid() && AppendsFit(Clear(b), packet.pieces)
    ensures var r := Filled(b, packet);
            && BytesOf(r, Message(r)) == packet.Wire() && r.rindex == r.extraIndex == 0
            && |r.data| >= |b.data|
  {
    AppendAllGrows(Clear(b), packet.pieces);
    hide AppendAll;
    hide AppendsFit;
    var r := Filled(b, packet);
    assert Clear(b).Written() == [];
    assert [] + Concat(packet.pieces) == Concat(packet.pieces);
    assert r.Contents() == r.data[..r.windex] == Concat(packet.pieces);
    assert packet.payload[0..] == packet.payload;
    BytesOfMessage(r);
  }

  /** The synchronous client: it packs into its buffer, and writes until both lanes are empty.  The
      data lane goes first. */
  predicate ClientSends(b: Storage, packet: Packet, ws: Writes)
    requires b.Valid()
  {
    && AppendsFit(Clear(b), packet.pieces)
    && (var r := Filled(b, packet);
        && OfferedRun(r, ws) && DataFirst(r, ws)
        && (var e := RunBuffer(r, ws); e.rindex == e.windex && e.extraIndex == |e.extraData|))
  }

  /** The server: it packs into its buffer, and writes at each writable event until its test holds.
      The data lane goes first, and the payload in one write of the last call. */
  predicate ServerSends(b: Storage, packet: Packet, ws: Writes)
    requires b.Valid() && AppendsFit(Clear(b), packet.pieces)
  {
    var r := Filled(b, packet);
    && OfferedRun(r, ws) && UntilComplete(r, ws)
    && DataFirst(r, ws) && ExtraInOneWrite(r, ws)
  }

  lemma RequestOnTheWire(b: Storage, packet: Packet, ws: Writes)
    requires b.Valid() && ClientSends(b, packet, ws)
    ensures OnWire(Filled(b, packet), ws) == packet.Wire()
  {
    FilledMessage(b, packet);
    hide Filled;
    DrainedWire(Filled(b, packet), ws);
  }

  /** Over the server's calls up to its completion test, what reaches the client is the response if
      the condition of Lanes.CompletionExactly holds. */
  lemma ResponseOnTheWire(b: Storage, packet: Packet, ws: Writes)
    requires b.Valid() && AppendsFit(Clear(b), packet.pieces) && ServerSends(b, packet, ws)
    ensures OnWire(Filled(b, packet), ws) == packet.Wire()
  {
    FilledMessage(b, packet);
    hide Filled;
    CompletionExactly(Filled(b, packet), ws);
  }

  /** A call fits any buffer of 64 bytes or more that is no shorter than its names. */
  lemma ShortNamesFit(p: Proto, call: Call, t: ConnType, b: Storage)
    requires Sendable(p, call) && b.Valid() && |b.data| >= 64
    requires |call.service| <= |b.data| && |call.methodName| <= |b.data|
    requires |call.service| <= INT_MAX && |call.methodName| <= INT_MAX
    ensures AppendsFit(b, RequestPacket(p, call, t).pieces)
  {
    hide AppendsFit;
    if p.HttpProtocol? {
      Http.PiecesFit(b, call.service, call.methodName, t, |call.payload|);
    } else {
      Simple.PiecesFit(b, call.service, call.methodName, t, RpcOk, |call.payload|);
    }
  }

  /** That a call fits is needed: a service name of 5000 bytes passes the codec, but not the new
      buffer of 1024 bytes, which grows once per append. */
  lemma SendableMayNotFit(name: Bytes, t: ConnType)
    requires name == seq(5000, i => 's')
    ensures var call := Call(name, "m", []);
            var b := Storage(seq(1024, i => '\0'), 0, 0, [], 0);
            Sendable(HttpProtocol, call) && !AppendsFit(b, RequestPacket(HttpProtocol, call, t).pieces)
  {
    var call := Call(name, "m", []);
    var b := Storage(seq(1024, i => '\0'), 0, 0, [], 0);
    var first := "POST " + "/";
    var rest := ["/", "m", " " + "HTTP/1.1" + "\r\n"] + Http.HeaderPieces(t, 0);
    assert RequestPacket(HttpProtocol, call, t).pieces == [first] + ([name] + rest) by { hide Http.HeaderPieces; }
    hide Http.HeaderPieces;
    hide RequestPacket;
    ShortAppendFits(b, first);
    AppendGrows(b, first);
    assert |Append(b, first).data| == 1024 && Append(b, first).windex == 6;
    FitsExactly(Append(b, first), name);
    hide Append;
    hide Fits;
    FirstTwoFit(b, first, name, rest);
  }

  lemma FirstTwoFit(b: Storage, first: Bytes, second: Bytes, rest: seq<Bytes>)
    requires b.Valid()
    ensures AppendsFit(b, [first] + ([second] + rest)) ==> Fits(b, first) && Fits(Append(b, first), second)
  {
    if AppendsFit(b, [first] + ([second] + rest)) {
      NextPiece(b, first, [second] + rest);
      NextPiece(Append(b, first), second, rest);
    }
  }

  // ---------------------------------------------------------------- sessions

  /** What the server dispatched and what the client read, over a session. */
  datatype Log = Log(dispatched: seq<Call>, answers: seq<Answer>)

  ghost function Session(p: Proto, protos: seq<Proto>, idx: nat, serve: Call -> Bytes, rounds: seq<Round>): Log
    requires forall c :: |serve(c)| < TWO_32
    requires forall i :: 0 <= i < |rounds| ==> S.Small([], rounds[i].request)
    decreases |rounds|
  {
    if rounds == [] then Log([], []) else
    var sv := ServeRequest(protos, idx, serve, rounds[0].request);
    if sv.Dropped? then Log([], []) else
    var rest := if sv.keep then Session(p, protos, sv.idx, serve, rounds[1..]) else Log([], []);
    Log([sv.call] + rest.dispatched, [ReadAnswer(p, rounds[0].response)] + rest.answers)
  }

  /** The write buffers of the client, which clears before it packs, and of the server's connection,
      which is cleared when a write completes. */
  datatype Buffers = Buffers(client: Storage, server: Storage) {
    predicate Valid()
    {
      client.Valid() && server.Valid() && Clear(server) == server && |server.data| >= 64
    }
  }

  /** The server's answer to a round fits its buffer. */
  lemma AnswerFits(protos: seq<Proto>, idx: nat, serve: Call -> Bytes, r: Round, bs: Buffers)
    requires (forall c :: |serve(c)| < TWO_32) && S.Small([], r.request) && bs.Valid()
    ensures var sv := ServeRequest(protos, idx, serve, r.request);
            sv.Served? ==> AppendsFit(Clear(bs.server), sv.reply.pieces)
  {
    ReplyFits(protos, idx, serve, r.request, Clear(bs.server));
  }

  /** A round carries its request: the client sends the call from its buffer, and the network delivers
      what was written, cut in any admissible way. */
  predicate CarriesRequest(p: Proto, t: ConnType, call: Call, r: Round, b: Storage)
    requires Sendable(p, call) && b.Valid()
  {
    var packet := RequestPacket(p, call, t);
    && Admissible(p, S.Request, r.request)
    && ClientSends(b, packet, r.clientWrites)
    && S.Stream(r.request) == OnWire(Filled(b, packet), r.clientWrites)
  }

  /** It carries the response: the server sends its reply from its buffer, and the network delivers
      what was written, cut in any admissible way. */
  predicate CarriesResponse(p: Proto, reply: Packet, r: Round, b: Storage)
    requires b.Valid() && AppendsFit(Clear(b), reply.pieces)
  {
    && Admissible(p, S.Response, r.response)
    && ServerSends(b, reply, r.serverWrites)
    && S.Stream(r.response) == OnWire(Filled(b, reply), r.serverWrites)
  }

  /** The buffers for the next round. */
  function After(p: Proto, t: ConnType, call: Call, r: Round, reply: Packet, bs: Buffers): (next: Buffers)
    requires Sendable(p, call) && bs.Valid() && CarriesRequest(p, t, call, r, bs.client)
    requires AppendsFit(Clear(bs.server), reply.pieces) && CarriesResponse(p, reply, r, bs.server)
    ensures next.Valid() && |next.client.data| >= |bs.client.data|
  {
    var packet := RequestPacket(p, call, t);
    FilledMessage(bs.client, packet);
    FilledMessage(bs.server, reply);
    Buffers(RunBuffer(Filled(bs.client, packet), r.clientWrites),
            Clear(RunBuffer(Filled(bs.server, reply), r.serverWrites)))
  }

  /** A round carries both. */
  ghost predicate RoundCarries(p: Proto, protos: seq<Proto>, idx: nat, t: ConnType, serve: Call -> Bytes,
                               call: Call, r: Round, bs: Buffers)
    requires (forall c :: |serve(c)| < TWO_32) && bs.Valid() && Sendable(p, call)
  {
    && CarriesRequest(p, t, call, r, bs.client)
    && (AnswerFits(protos, idx, serve, r, bs);
        var sv := ServeRequest(protos, idx, serve, r.request);
        sv.Served? ==> CarriesResponse(p, sv.reply, r, bs.server))
  }

  /** Every round of a session carries its messages, over the buffers that the round before has left. */
  ghost predicate Carried(p: Proto, protos: seq<Proto>, idx: nat, t: ConnType, serve: Call -> Bytes,
                          calls: seq<Call>, rounds: seq<Round>, bs: Buffers)
    requires (forall c :: |serve(c)| < TWO_32) && bs.Valid()
    requires forall i :: 0 <= i < |calls| ==> Sendable(p, calls[i])
    decreases |calls|
  {
    && |rounds| == |calls|
    && (calls != [] ==>
          && RoundCarries(p, protos, idx, t, serve, calls[0], rounds[0], bs)
          && (var sv := ServeRequest(protos, idx, serve, rounds[0].request);
              sv.Served? ==>
                (AnswerFits(protos, idx, serve, rounds[0], bs);
                 Carried(p, protos, sv.idx, t, serve, calls[1..], rounds[1..],
                         After(p, t, calls[0], rounds[0], sv.reply, bs)))))
  }

  /** One round over the buffers of both sides: the server dispatches the call that was sent, and the
      client reads what the service returned for it. */
  lemma OneRound(p: Proto, protos: seq<Proto>, idx: nat, at: nat, t: ConnType, call: Call, serve: Call -> Bytes,
                 r: Round, bs: Buffers)
    requires Ahead(protos, idx, at, p) && Sendable(p, call) && Answerable(p, serve(call))
    requires (forall c :: |serve(c)| < TWO_32) && bs.Valid()
    requires RoundCarries(p, protos, idx, t, serve, call, r, bs)
    ensures var sv := ServeRequest(protos, idx, serve, r.request);
            sv.Served? && sv.idx == at && sv.call == call && sv.keep == !t.Short?
    ensures ReadAnswer(p, r.response) == Got(serve(call))
  {
    hide ServeRequest;
    hide ReadAnswer;
    hide RequestPacket;
    hide Sendable;
    hide Answerable;
    hide AppendsFit;
    hide Filled;
    hide Packet.Wire;
    AnswerFits(protos, idx, serve, r, bs);
    RequestOnTheWire(bs.client, RequestPacket(p, call, t), r.clientWrites);
    hide ClientSends;
    hide Admissible;
    ServesCall(p, protos, idx, at, t, call, serve, r.request);
    var reply := ReplyTo(p, t, serve(call));
    hide ReplyTo;
    ResponseOnTheWire(bs.server, reply, r.serverWrites);
    hide ServerSends;
    hide OnWire;
    ReadsReply(p, t, serve(call), r.response);
  }

  function AnswersTo(serve: Call -> Bytes, calls: seq<Call>): seq<Answer>
  {
    if calls == [] then [] else [Got(serve(calls[0]))] + AnswersTo(serve, calls[1..])
  }

  /** Exactly once, in order: for every protocol order, every list of calls, every service, any writes
      of both sides that empty their buffers in order, and every admissible way of cutting every
      message, the server dispatches exactly the calls sent, and the client reads exactly the answers
      to them.  A Short connection carries one call. */
  lemma {:induction false} ExactlyOnce(p: Proto, protos: seq<Proto>, idx: nat, at: nat, t: ConnType,
                                       serve: Call -> Bytes, calls: seq<Call>, rounds: seq<Round>, bs: Buffers)
    requires Ahead(protos, idx, at, p) && (t.Short? ==> |calls| <= 1)
    requires (forall c :: |serve(c)| < TWO_32) && bs.Valid()
    requires forall i :: 0 <= i < |calls| ==> Sendable(p, calls[i]) && Answerable(p, serve(calls[i]))
    requires forall i :: 0 <= i < |rounds| ==> S.Small([], rounds[i].request)
    requires Carried(p, protos, idx, t, serve, calls, rounds, bs)
    ensures Session(p, protos, idx, serve, rounds) == Log(calls, AnswersTo(serve, calls))
    decreases |calls|
  {
    hide ServeRequest;
    hide ReadAnswer;
    hide CarriesRequest;
    hide CarriesResponse;
    hide Sendable;
    hide Answerable;
    hide AppendsFit;
    hide After;
    if calls != [] {
      AnswerFits(protos, idx, serve, rounds[0], bs);
      OneRound(p, protos, idx, at, t, calls[0], serve, rounds[0], bs);
      var sv := ServeRequest(protos, idx, serve, rounds[0].request);
      ExactlyOnce(p, protos, at, at, t, serve, calls[1..], rounds[1..],
                  After(p, t, calls[0], rounds[0], sv.reply, bs));
      assert calls == [calls[0]] + calls[1..];
    }
  }
}
