/** The two views of a readable connection agree: what the loop over the protocols computes from the
    bytes (Selection) is one of the outcomes that the life cycle of the server allows (ServerSpec). */
module Outcomes {
  import opened Bytes
  import opened Protocol
  import opened Selection
  import opened Delivery
  import V = ServerSpec
  import H = HttpSpec
  import M = HttpMeaning
  import R = HttpRoundTrip
  import F = HttpFailure
  import S = SimpleSpec

  /** The connection of the life cycle stands for a reader with the context `ctx`. */
  predicate Shows(c: V.Conn, protos: seq<Proto>, ctx: AnyCtx)
  {
    && (c.ctx.NoCtx? <==> ctx.NullCtx?)
    && (c.ctx.Parsing? ==> c.ctx.proto == c.protoIdx)
    && !c.ctx.Responding?
    && Belongs(protos, c.protoIdx, ctx)
  }

  predicate IsShort(ctx: AnyCtx)
  {
    match ctx
    case NullCtx => false
    case HttpCtx(h) => h.connType.Short?
    case SimpleCtx(c) => c.connType.Short?
  }

  /** The payload of a context that a parser has completed. */
  function PayloadOf(ctx: AnyCtx): View
  {
    match ctx
    case NullCtx => NO_VIEW
    case HttpCtx(h) => h.payloadView
    case SimpleCtx(c) => c.payloadView
  }

  /** The branches of `data_read_callback` behind its loop, and the first line of `request_callback`,
      which takes the payload out of the storage `d`; `usable` says whether it then finds the service
      and its request message.  An exception ends the process.  So may an access outside the storage,
      after which nothing is claimed. */
  function OutcomeOf(r: Reader, protocols: nat, before: AnyCtx, usable: bool, d: Bytes): V.Outcome
  {
    if r.idx >= protocols then V.Exhausted
    else match r.status
    case NoEnoughData => V.Partial(r.idx, before.NullCtx? && !r.ctx.NullCtx?)
    case Success =>
      if !PayloadOf(r.ctx).In(d) then V.Crashed
      else if usable then V.Served(r.idx, IsShort(r.ctx)) else V.Rejected(r.idx)
    case Threw => V.Crashed
    case Wild => V.Crashed
    case _ => V.Failed(r.idx)
  }

  /** Every answer of the loop is an outcome that the server's steps admit, a connection that goes on
      waiting still stands for the reader that the loop has left, and the loop never answers with a
      status that only stages have. */
  lemma OutcomesArePossible(cfg: V.Config, protos: seq<Proto>, c: V.Conn, ctx: AnyCtx, d: Bytes, w: nat, pos: nat,
                            usable: bool, s: V.State, a: V.Addr)
    requires pos <= w <= |d| && cfg.protocols == |protos| && Shows(c, protos, ctx)
    requires a in s.mem && s.mem[a] == c
    ensures var r := ReadLoop(protos, c.protoIdx, ctx, d, w, pos);
            var o := OutcomeOf(r, |protos|, ctx, usable, d);
            && V.Possible(cfg, c, o)
            && (o.Exhausted? <==> r.idx >= |protos|)
            && (o.Failed? <==> r.idx < |protos| && r.status.Error?)
            && (o.Partial? <==> r.idx < |protos| && r.status.NoEnoughData?)
            && (o.Served? || o.Rejected? <==> r.idx < |protos| && r.status.Success? && PayloadOf(r.ctx).In(d))
            && (o.Served? ==> usable) && (o.Rejected? ==> !usable)
            && (o.Partial? ==> Shows(V.Readable(cfg, s, a, o).mem[a], protos, r.ctx))
            && (o.Served? ==> V.Readable(cfg, s, a, o).mem[a].ctx == V.Responding(r.idx, IsShort(r.ctx)))
  {
    LoopKeepsBelonging(protos, c.protoIdx, ctx, d, w, pos);
    LoopStatus(protos, c.protoIdx, ctx, d, w, pos);
    hide ReadLoop;
  }

  /** A call of a parser ends with an answer, never in the middle of its stages. */
  lemma {:induction false} HttpAnswers(k: H.Kind, c: H.Ctx, s: Bytes, pos: nat)
    requires pos <= |s|
    ensures H.ParseMsg(k, c, s, pos).status in {Success, Error, NoEnoughData, Threw}
    decreases 3 - c.stage
  {
    if c.stage < 3 {
      StageAnswers(k, c, s, pos);
    }
    hide H.Stage;
    if c.stage < 3 && H.Stage(k, c, s, pos).status.PartSuccess? {
      var r := H.Stage(k, c, s, pos);
      HttpAnswers(k, r.ctx.(stage := c.stage + 1), s, r.pos);
    }
  }

  lemma StageAnswers(k: H.Kind, c: H.Ctx, s: Bytes, pos: nat)
    requires pos <= |s| && c.stage < 3
    ensures H.Stage(k, c, s, pos).status in {PartSuccess, Error, NoEnoughData, Threw}
  {
    M.HeadersAnswer(c, s, pos);
    hide H.ParseHeaders;
    hide H.RequestLine;
  }

  lemma {:induction false} SimpleAnswers(c: S.Ctx, d: Bytes, w: nat, pos: nat)
    requires w <= |d| && (c.stage < 2 ==> pos <= w)
    ensures S.Actual(S.Request, c, d, w, pos).status in {Success, Error, NoEnoughData, Wild}
    decreases S.Last(S.Request) - c.stage
  {
    if c.stage < S.Last(S.Request) {
      var r := if c.stage < 2 then S.Stage(S.Request, c, d[..w], pos) else S.ActualField(S.Request, c, d, w, pos);
      if r.status.PartSuccess? {
        SimpleAnswers(r.ctx, d, w, r.pos);
      }
    }
  }

  lemma CallAnswers(p: Proto, ctx: AnyCtx, d: Bytes, w: nat, pos: nat)
    requires pos <= w <= |d|
    ensures !ParseWith(p, ctx, d, w, pos).status.PartSuccess?
  {
    hide H.ParseMsg;
    hide S.Actual;
    match ctx
    case NullCtx =>
      HttpAnswers(H.Request, H.NEW_CTX, d[..w], pos);
      SimpleAnswers(S.NEW_CTX, d, w, pos);
    case HttpCtx(h) => HttpAnswers(H.Request, h, d[..w], pos);
    case SimpleCtx(c) => SimpleAnswers(c, d, w, pos);
  }

  lemma {:induction false} LoopStatus(protos: seq<Proto>, idx: nat, ctx: AnyCtx, d: Bytes, w: nat, pos: nat)
    requires pos <= w <= |d|
    ensures var r := ReadLoop(protos, idx, ctx, d, w, pos);
            r.idx < |protos| ==> r.status in {Success, Error, NoEnoughData, Threw, Wild}
    decreases |protos| - idx
  {
    hide ParseWith;
    if idx < |protos| {
      CallAnswers(protos[idx], ctx, d, w, pos);
      var r := ParseWith(protos[idx], ctx, d, w, pos);
      if r.status.TryAnotherProtocol? {
        LoopStatus(protos, idx + 1, r.ctx, d, w, pos);
      }
    }
  }

  // ---------------------------------------------------------------- requests that end the server

  /** The bytes of a POST for a path with one slash, with one header line and a body. */
  function Posted(header: Bytes, body: Bytes): Bytes
  {
    "POST / HTTP/1.1" + "\r\n" + (M.Block([header]) + body)
  }

  /** Exactly when the bytes received on a connection of HTTP end the server, finished or not, at any
      position of HTTP among the protocols and whatever stale bytes follow. */
  lemma ServerEndsExactly(protos: seq<Proto>, idx: nat, at: nat, s: Bytes, stale: Bytes, usable: bool)
    requires Ahead(protos, idx, at, HttpProtocol) && IsHttp(s)
    ensures var r := ReadLoop(protos, idx, NullCtx, s + stale, |s|, 0);
            OutcomeOf(r, |protos|, NullCtx, usable, s + stale).Crashed?
            <==> F.FatalStream(s)
  {
    F.StreamDecides(s);
    hide F.FatalStream;
    NotBoth(s);
    HttpLoop(protos, idx, at, s, stale);
    HttpAnswers(H.Request, H.NEW_CTX, s, 0);
    if H.ParseMsg(H.Request, H.NEW_CTX, s, 0).status.Success? {
      HttpSuccessInside(H.Request, H.NEW_CTX, s, 0);
    }
    hide H.ParseMsg;
    hide H.MatchMethod;
    hide ReadLoop;
    hide S.IntAt;
  }

  /** One header ends the whole server: a length that is not a number throws out of the parser, and a
      negative one out of taking the payload. */
  lemma OneHeaderEndsTheServer(value: Bytes, body: Bytes, usable: bool)
    requires value == "x" || (value == "-1" && |body| <= INT_MAX)
    ensures var s := Posted(R.LineOf(F.LENGTH, value), body);
            OutcomeOf(ReadLoop([HttpProtocol], 0, NullCtx, s, |s|, 0), 1, NullCtx, usable, s).Crashed?
  {
    var s := Posted(R.LineOf(F.LENGTH, value), body);
    PostIsFatal(value, body);
    PostIsHttp(s) by { assert "POST / HTTP/1.1" <= s; }
    hide Posted;
    hide H.MatchMethod;
    hide ReadLoop;
    hide F.FatalStream;
    hide OutcomeOf;
    assert s + [] == s;
    ServerEndsExactly([HttpProtocol], 0, 0, s, [], usable);
  }

  /** The header block need not end: the line alone is enough. */
  lemma OneLineEndsTheServer(usable: bool)
    ensures var s := "POST / HTTP/1.1\r\n" + (R.LineOf(F.LENGTH, "x") + "\r\n");
            OutcomeOf(ReadLoop([HttpProtocol], 0, NullCtx, s, |s|, 0), 1, NullCtx, usable, s).Crashed?
  {
    var line, header := "POST / HTTP/1.1", R.LineOf(F.LENGTH, "x");
    var s := "POST / HTTP/1.1\r\n" + (header + "\r\n");
    assert "POST / HTTP/1.1\r\n" == line + "\r\n";
    PostLine();
    PostIsHttp(s);
    R.LineOfIsLine(F.LENGTH, "x");
    F.LengthsAreFatal("x", []);
    F.OpenIsFatal(line, 1, "/", "HTTP/1.1", header);
    hide H.MatchMethod;
    hide F.FatalStream;
    hide ReadLoop;
    hide OutcomeOf;
    assert s + [] == s;
    ServerEndsExactly([HttpProtocol], 0, 0, s, [], usable);
  }

  /** Exactly when the bytes of a request of the simple protocol do, by the lengths in its fields. */
  lemma SimpleEndsExactly(protos: seq<Proto>, idx: nat, at: nat, s: Bytes, stale: Bytes, usable: bool)
    requires Ahead(protos, idx, at, SimpleProtocol) && IsSimple(s) && |s| >= HTTP_METHOD_MAX_LEN
    requires |s + stale| < S.MAX_STORAGE
    ensures var r := ReadLoop(protos, idx, NullCtx, s + stale, |s|, 0);
            OutcomeOf(r, |protos|, NullCtx, usable, s + stale).Crashed?
            <==> S.RunsOut(S.Request, S.NEW_CTX, s + stale, |s|, 0)
  {
    NotBoth(s);
    SimpleFirst(protos, idx, at, s, stale);
    S.OutsideExactly(S.Request, S.NEW_CTX, s + stale, |s|, 0);
    SimpleAnswers(S.NEW_CTX, s + stale, |s|, 0);
    hide S.Actual;
    hide S.RunsOut;
    hide ReadLoop;
    hide S.IntAt;
  }

  /** The loop on a connection without context that the simple protocol takes. */
  lemma {:induction false} SimpleFirst(protos: seq<Proto>, idx: nat, at: nat, s: Bytes, stale: Bytes)
    requires Ahead(protos, idx, at, SimpleProtocol) && IsSimple(s) && !IsHttp(s) && |s| >= HTTP_METHOD_MAX_LEN
    ensures var q := S.Actual(S.Request, S.NEW_CTX, s + stale, |s|, 0);
            ReadLoop(protos, idx, NullCtx, s + stale, |s|, 0) == Reader(q.status, at, SimpleCtx(q.ctx), q.pos)
    decreases at - idx
  {
    hide S.Actual;
    hide ParseWith;
    hide IsHttp;
    hide IsSimple;
    FirstCalls(s, stale);
    SimpleNeverTriesAnother(S.NEW_CTX, s + stale, |s|, 0);
    if idx < at {
      SimpleFirst(protos, idx + 1, at, s, stale);
    }
  }

  lemma PostIsFatal(value: Bytes, body: Bytes)
    requires value == "x" || (value == "-1" && |body| <= INT_MAX)
    ensures F.FatalStream(Posted(R.LineOf(F.LENGTH, value), body))
  {
    hide H.ParseMsg;
    hide F.FatalStream;
    F.StreamDecides(Posted(R.LineOf(F.LENGTH, value), body));
    hide F.Throws;
    hide F.Fatal;
    PostLine();
    R.LineOfIsLine(F.LENGTH, value);
    F.LengthsAreFatal(value, body);
    F.LengthDecides("POST / HTTP/1.1", 1, "/", "HTTP/1.1", [R.LineOf(F.LENGTH, value)], body);
  }

  lemma PostLine()
    ensures M.Shape("POST / HTTP/1.1", 1, "/", "HTTP/1.1") && NoCrlf("POST / HTTP/1.1")
  {
    var line := "POST / HTTP/1.1";
    assert H.METHODS[1] == "POST" && "POST" + " " + "/" + " " + "HTTP/1.1" == line;
    forall i | 0 <= i < |line| ensures !CrlfAt(line, i) {
      assert '\r' !in line;
    }
  }

  lemma PostIsHttp(s: Bytes)
    requires "POST / HTTP/1.1" <= s
    ensures |s| >= HTTP_METHOD_MAX_LEN && H.MatchMethod(s, 0) != -1
  {
    var w := H.METHODS[1] + " ";
    assert w == "POST ";
    assert w <= s;
    M.MatchesMethod(s, 1);
  }
}
