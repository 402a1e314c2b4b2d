/** One exchange on the bytes of its two messages: what the server makes of a request that has been
    packed, and what the client makes of the response, however the network cuts them. */
module Exchange {
  import opened Bytes
  import opened Protocol
  import opened Selection
  import opened Delivery
  import H = HttpSpec
  import HC = HttpChunking
  import HR = HttpRoundTrip
  import HM = HttpMeaning
  import S = SimpleSpec
  import SR = SimpleRoundTrip
  import Http
  import Simple
  import B = BufferSpec
  import O = Outcomes
  import V = ServerSpec

  datatype Call = Call(service: Bytes, methodName: Bytes, payload: Bytes)

  // ---------------------------------------------------------------- the two sides

  /** What a packer appends to the data lane, piece by piece, and the payload for the extra lane. */
  datatype Packet = Packet(pieces: seq<Bytes>, payload: Bytes) {
    function Wire(): Bytes { Concat(pieces) + payload }
  }

  /** What the server makes of one request: the next protocol index, the call it dispatches, the
      response it packs and whether it keeps the connection; or it waits, closes or ends. */
  datatype Served = Served(idx: nat, call: Call, reply: Packet, keep: bool) | Dropped

  /** What the server decides about one request: `data_read_callback` until it stops waiting, and the
      branches of `request_callback`.  The context is null and the buffers are cleared before. */
  function Decides(protos: seq<Proto>, idx: nat, usable: bool, arrivals: Arrivals): V.Outcome
    requires S.Small([], arrivals)
  {
    var start := Reader(NoEnoughData, idx, NullCtx, 0);
    O.OutcomeOf(Feed(protos, start, [], arrivals), |protos|, NullCtx, usable, Received(protos, start, [], arrivals))
  }

  /** The same for a usable service, with `response_callback`. */
  ghost function ServeRequest(protos: seq<Proto>, idx: nat, serve: Call -> Bytes, arrivals: Arrivals): Served
    requires S.Small([], arrivals) && forall c :: |serve(c)| < TWO_32
  {
    var start := Reader(NoEnoughData, idx, NullCtx, 0);
    var r := Feed(protos, start, [], arrivals);
    var got := Received(protos, start, [], arrivals);
    var o := Decides(protos, idx, true, arrivals);
    if !o.Served? || !O.PayloadOf(r.ctx).In(got) then Dropped else
    match r.ctx
    case NullCtx => Dropped
    case HttpCtx(h) =>
      var call := Call(h.service, h.methodName, h.payloadView.Str(got));
      Served(o.idx, call, HttpReply(h.connType, serve(call)), !o.short)
    case SimpleCtx(c) =>
      var call := Call(c.service, c.methodName, c.payloadView.Str(got));
      Served(o.idx, call, SimpleReply(c.connType, serve(call)), !o.short)
  }

  function HttpReply(t: ConnType, result: Bytes): Packet { Packet(Http.ResponsePieces(t, |result|), result) }

  function SimpleReply(t: ConnType, result: Bytes): Packet
    requires |result| < TWO_32
  {
    Packet(Simple.ResponsePieces(t, RpcOk, |result|), result)
  }

  datatype Answer = Got(payload: Bytes) | Nothing

  /** The read loop of the synchronous client, until the response is parsed. */
  function ReadAnswer(p: Proto, arrivals: Arrivals): Answer
  {
    if p.HttpProtocol? then
      var start := H.Parse(NoEnoughData, H.NEW_CTX, 0);
      var r := HC.Feed(H.Response, start, [], Chunks(arrivals));
      var got := HttpReceived(start, [], Chunks(arrivals));
      if r.status.Success? && r.ctx.payloadView.In(got) then Got(r.ctx.payloadView.Str(got)) else Nothing
    else
      var start := S.Parse(NoEnoughData, S.NEW_CTX, 0);
      var r := S.Feed(S.Response, start, [], arrivals);
      var got := SimpleReceived(start, [], arrivals);
      if r.status.Success? && r.ctx.payloadView.In(got) then Got(r.ctx.payloadView.Str(got)) else Nothing
  }

  // ---------------------------------------------------------------- what can be sent

  /** What the client can check before a call. */
  predicate Sendable(p: Proto, call: Call)
  {
    if p.HttpProtocol? then
      HR.Packable(call.service, call.methodName, call.payload)
    else
      && '/' !in call.service
      && |SR.PathOf(call.service, call.methodName)| < TWO_32 && |call.payload| < TWO_32
  }

  predicate Answerable(p: Proto, result: Bytes)
  {
    if p.HttpProtocol? then |result| <= INT_MAX else |result| < TWO_32
  }

  /** What the client packs. */
  function RequestPacket(p: Proto, call: Call, t: ConnType): Packet
    requires Sendable(p, call)
  {
    if p.HttpProtocol? then
      Packet(Http.RequestPieces(call.service, call.methodName, t, |call.payload|), call.payload)
    else
      Packet(Simple.RequestPieces(call.service, call.methodName, t, |call.payload|), call.payload)
  }

  lemma HttpRequestWire(call: Call, t: ConnType)
    requires Sendable(HttpProtocol, call)
    ensures RequestPacket(HttpProtocol, call, t).Wire() ==
            HR.PackRequest(call.service, call.methodName, t, call.payload)
  {
    Http.RequestPiecesAreHead(call.service, call.methodName, t, |call.payload|);
  }

  lemma HttpReplyWire(t: ConnType, result: Bytes)
    ensures HttpReply(t, result).Wire() == HR.PackResponse(t, result)
  {
    Http.ResponsePiecesAreHead(t, |result|);
  }

  lemma SimpleRequestWire(call: Call, t: ConnType)
    requires Sendable(SimpleProtocol, call)
    ensures RequestPacket(SimpleProtocol, call, t).Wire() ==
            SR.PackRequest(call.service, call.methodName, t, call.payload)
  {
    Simple.RequestPiecesAreHead(call.service, call.methodName, t, |call.payload|);
  }

  lemma SimpleReplyWire(t: ConnType, result: Bytes)
    requires |result| < TWO_32
    ensures SimpleReply(t, result).Wire() == SR.PackResponse(t, RpcOk, result)
  {
    Simple.ResponsePiecesAreHead(t, RpcOk, |result|);
  }

  /** A cut that the parser of the protocol admits: any cut for HTTP, for the simple protocol one
      whose prefixes meet the guard. */
  predicate Admissible(p: Proto, k: S.Kind, arrivals: Arrivals)
  {
    S.Small([], arrivals) && (p.SimpleProtocol? ==> PrefixGuarded(k, [], arrivals))
  }

  // ---------------------------------------------------------------- one round

  /** What the loop has made of the bytes of a packed request, when it stops waiting. */
  predicate Understood(r: Reader, at: nat, call: Call, t: ConnType, got: Bytes)
  {
    && r.status.Success? && r.idx == at && O.PayloadOf(r.ctx).In(got)
    && match r.ctx
       case NullCtx => false
       case HttpCtx(h) =>
         && h.service == call.service && h.methodName == call.methodName && h.connType == HR.WireType(t)
         && h.payloadView.Str(got) == call.payload
       case SimpleCtx(c) =>
         && c.service == call.service && c.methodName == call.methodName && c.connType == t
         && c.payloadView.Str(got) == call.payload
  }

  lemma HttpUnderstood(protos: seq<Proto>, idx: nat, at: nat, t: ConnType, call: Call, arrivals: Arrivals)
    requires Ahead(protos, idx, at, HttpProtocol) && Sendable(HttpProtocol, call)
    requires S.Small([], arrivals) && S.Stream(arrivals) == RequestPacket(HttpProtocol, call, t).Wire()
    ensures var start := Reader(NoEnoughData, idx, NullCtx, 0);
            && Understood(Feed(protos, start, [], arrivals), at, call, t, Received(protos, start, [], arrivals))
            && Feed(protos, start, [], arrivals).ctx.HttpCtx?
  {
    HttpRequestWire(call, t);
    hide Packet.Wire;
    hide RequestPacket;
    var s := HR.PackRequest(call.service, call.methodName, t, call.payload);
    HttpWireFacts(call, t);
    HR.RequestRoundTrip(call.service, call.methodName, t, call.payload);
    HC.SuccessIsHarmless(H.Request, H.NEW_CTX, s, 0);
    hide HC.CastHarmless;
    hide HR.PackRequest;
    hide HR.Packable;
    hide H.ParseMsg;
    hide HR.WireType;
    hide Feed;
    hide Received;
    assert [] + S.Stream(arrivals) == s;
    HttpDelivery(protos, Reader(NoEnoughData, idx, NullCtx, 0), [], arrivals, at);
  }

  lemma HttpWireFacts(call: Call, t: ConnType)
    requires Sendable(HttpProtocol, call)
    ensures var s := HR.PackRequest(call.service, call.methodName, t, call.payload); IsHttp(s)
  {
    var text := HR.RequestText(call.service, call.methodName);
    var s := HR.PackRequest(call.service, call.methodName, t, call.payload);
    HR.PackedStart(call.service, call.methodName, t, call.payload);
    hide HR.PackRequest;
    hide HR.PackedHeaders;
    assert H.METHODS[1] + " " == "POST ";
    assert "POST " <= text;
    assert text <= text + "\r\n";
    assert H.METHODS[1] + " " <= s;
    HM.MatchesMethod(s, 1);
  }

  lemma HttpReads(t: ConnType, result: Bytes, arrivals: Arrivals)
    requires Answerable(HttpProtocol, result) && S.Stream(arrivals) == HR.PackResponse(t, result)
    ensures ReadAnswer(HttpProtocol, arrivals) == Got(result)
  {
    var s := HR.PackResponse(t, result);
    assert |s| == |HR.ResponseHead(t, |result|)| + |result| && s != [];
    HR.ResponseRoundTrip(t, result);
    ChunksOfStream(arrivals);
    assert [] + S.Stream(arrivals) == s;
    hide HR.PackResponse;
    hide H.ParseMsg;
    HttpAnswer(H.Parse(NoEnoughData, H.NEW_CTX, 0), [], Chunks(arrivals));
  }

  lemma SimpleUnderstood(protos: seq<Proto>, idx: nat, at: nat, t: ConnType, call: Call, arrivals: Arrivals)
    requires Ahead(protos, idx, at, SimpleProtocol) && Sendable(SimpleProtocol, call)
    requires Admissible(SimpleProtocol, S.Request, arrivals)
    requires S.Stream(arrivals) == RequestPacket(SimpleProtocol, call, t).Wire()
    ensures var start := Reader(NoEnoughData, idx, NullCtx, 0);
            && Understood(Feed(protos, start, [], arrivals), at, call, t, Received(protos, start, [], arrivals))
            && Feed(protos, start, [], arrivals).ctx.SimpleCtx?
  {
    SimpleRequestWire(call, t);
    hide Packet.Wire;
    hide RequestPacket;
    var s := SR.PackRequest(call.service, call.methodName, t, call.payload);
    SimpleWireFacts(call, t);
    SR.RequestIntended(call.service, call.methodName, t, call.payload);
    hide SR.PackRequest;
    hide S.Intended;
    hide S.Guard;
    hide S.IntAt;
    hide S.Small;
    hide IsSimple;
    hide PrefixGuarded;
    hide Feed;
    hide Received;
    assert [] + S.Stream(arrivals) == s;
    SimpleDelivery(protos, Reader(NoEnoughData, idx, NullCtx, 0), [], arrivals, at);
  }

  lemma SimpleWireFacts(call: Call, t: ConnType)
    requires Sendable(SimpleProtocol, call)
    ensures var s := SR.PackRequest(call.service, call.methodName, t, call.payload);
            IsSimple(s) && |s| >= HTTP_METHOD_MAX_LEN
  {
    var s := SR.PackRequest(call.service, call.methodName, t, call.payload);
    SR.RequestLayout(call.service, call.methodName, t, call.payload);
    SR.WordHere(s, 0, S.MAGIC_NUM);
  }

  lemma SimpleReads(t: ConnType, result: Bytes, arrivals: Arrivals)
    requires Answerable(SimpleProtocol, result) && Admissible(SimpleProtocol, S.Response, arrivals)
    requires S.Stream(arrivals) == SR.PackResponse(t, RpcOk, result)
    ensures ReadAnswer(SimpleProtocol, arrivals) == Got(result)
  {
    var s := SR.PackResponse(t, RpcOk, result);
    SR.ResponseLayout(t, RpcOk, result);
    SR.ResponseRoundTrip(t, RpcOk, result, []);
    assert [] + S.Stream(arrivals) == s;
    hide SR.PackResponse;
    hide S.Intended;
    hide S.Actual;
    hide PrefixGuarded;
    SimpleAnswer(S.Parse(NoEnoughData, S.NEW_CTX, 0), [], arrivals);
  }

  /** The reply to a request; HTTP does not tell Pool from Single. */
  function ReplyTo(p: Proto, t: ConnType, result: Bytes): Packet
    requires |result| < TWO_32
  {
    if p.HttpProtocol? then HttpReply(HR.WireType(t), result) else SimpleReply(t, result)
  }

  /** In either protocol, for every connection type, every position of the protocol and every admissible
      cut: a packed request is served if the service can be used, with the connection to be closed
      exactly if the type is Short, and rejected otherwise. */
  lemma DecidesExactly(p: Proto, protos: seq<Proto>, idx: nat, at: nat, t: ConnType, call: Call, usable: bool,
                       request: Arrivals)
    requires Ahead(protos, idx, at, p) && Sendable(p, call)
    requires Admissible(p, S.Request, request) && S.Stream(request) == RequestPacket(p, call, t).Wire()
    ensures Decides(protos, idx, usable, request) == if usable then V.Served(at, t.Short?) else V.Rejected(at)
  {
    UnderstandsCall(p, protos, idx, at, t, call, request);
    hide Feed;
    hide Received;
    hide PrefixGuarded;
    hide Packet.Wire;
    hide RequestPacket;
    hide S.Small;
  }

  lemma UnderstandsCall(p: Proto, protos: seq<Proto>, idx: nat, at: nat, t: ConnType, call: Call, request: Arrivals)
    requires Ahead(protos, idx, at, p) && Sendable(p, call)
    requires Admissible(p, S.Request, request) && S.Stream(request) == RequestPacket(p, call, t).Wire()
    ensures var start := Reader(NoEnoughData, idx, NullCtx, 0);
            var r := Feed(protos, start, [], request);
            && Understood(r, at, call, t, Received(protos, start, [], request))
            && (p.HttpProtocol? <==> r.ctx.HttpCtx?)
  {
    hide PrefixGuarded;
    hide Packet.Wire;
    hide RequestPacket;
    hide Feed;
    hide Received;
    hide Understood;
    if p.HttpProtocol? {
      HttpUnderstood(protos, idx, at, t, call, request);
    } else {
      SimpleUnderstood(protos, idx, at, t, call, request);
    }
  }

  /** The server dispatches the call that was sent, and replies what the service returned. */
  lemma ServesCall(p: Proto, protos: seq<Proto>, idx: nat, at: nat, t: ConnType, call: Call, serve: Call -> Bytes,
                   request: Arrivals)
    requires Ahead(protos, idx, at, p) && Sendable(p, call) && forall c :: |serve(c)| < TWO_32
    requires Admissible(p, S.Request, request) && S.Stream(request) == RequestPacket(p, call, t).Wire()
    ensures ServeRequest(protos, idx, serve, request) == Served(at, call, ReplyTo(p, t, serve(call)), !t.Short?)
  {
    UnderstandsCall(p, protos, idx, at, t, call, request);
    DecidesExactly(p, protos, idx, at, t, call, true, request);
    hide Decides;
    hide Feed;
    hide Received;
    hide PrefixGuarded;
    hide Packet.Wire;
    hide RequestPacket;
    hide S.Small;
    hide HttpReply;
    hide SimpleReply;
  }

  /** In either protocol the client reads the payload of the reply. */
  lemma ReadsReply(p: Proto, t: ConnType, result: Bytes, response: Arrivals)
    requires Answerable(p, result) && |result| < TWO_32
    requires Admissible(p, S.Response, response) && S.Stream(response) == ReplyTo(p, t, result).Wire()
    ensures ReadAnswer(p, response) == Got(result)
  {
    hide ReadAnswer;
    hide PrefixGuarded;
    hide Packet.Wire;
    if p.HttpProtocol? {
      HttpReplyWire(HR.WireType(t), result);
      HttpReads(HR.WireType(t), result, response);
    } else {
      SimpleReplyWire(t, result);
      SimpleReads(t, result, response);
    }
  }

  /** A buffer of 64 bytes or more takes every response, however full it is. */
  lemma ReplyFits(protos: seq<Proto>, idx: nat, serve: Call -> Bytes, request: Arrivals, b: B.Storage)
    requires S.Small([], request) && forall c :: |serve(c)| < TWO_32
    requires b.Valid() && |b.data| >= 64
    ensures var sv := ServeRequest(protos, idx, serve, request); sv.Served? ==> B.AppendsFit(b, sv.reply.pieces)
  {
    hide Feed;
    hide Received;
    hide B.AppendsFit;
    hide S.Small;
    var sv := ServeRequest(protos, idx, serve, request);
    if sv.Served? {
      var n := |serve(sv.call)|;
      forall t: ConnType
        ensures B.AppendsFit(b, Http.ResponsePieces(t, n)) && B.AppendsFit(b, Simple.ResponsePieces(t, RpcOk, n))
      {
        Http.PiecesFit(b, [], [], t, n);
        Simple.PiecesFit(b, [], [], t, RpcOk, n);
      }
      hide Http.ResponsePieces;
      hide Simple.ResponsePieces;
    }
  }
}
