/** One message over one connection: what the parser answers when the last byte of a packed message
    has arrived, and that it does not answer before. */
module Delivery {
  import opened Bytes
  import opened Protocol
  import opened Selection
  import H = HttpSpec
  import HM = HttpMeaning
  import HC = HttpChunking
  import S = SimpleSpec

  type Arrivals = seq<S.Arrival>

  // ---------------------------------------------------------------- received bytes

  /** The bytes that have arrived when the server stops waiting. */
  function Received(protos: seq<Proto>, r: Reader, s: Bytes, arrivals: Arrivals): Bytes
    requires S.Small(s, arrivals) && (r.status.NoEnoughData? ==> r.pos <= |s|)
    decreases |arrivals|
  {
    if arrivals == [] || !r.status.NoEnoughData? then s else
    var s1 := s + arrivals[0].chunk;
    LoopPos(protos, r.idx, r.ctx, s1 + arrivals[0].stale, |s1|, r.pos);
    Received(protos, ReadLoop(protos, r.idx, r.ctx, s1 + arrivals[0].stale, |s1|, r.pos), s1, arrivals[1..])
  }

  /** The bytes that have arrived when an HTTP client stops waiting. */
  function HttpReceived(r: H.Parse, s: Bytes, chunks: seq<Bytes>): Bytes
    requires r.pos <= |s|
    decreases |chunks|
  {
    if chunks == [] || !r.status.NoEnoughData? then s
    else HttpReceived(H.ParseMsg(H.Response, r.ctx, s + chunks[0], r.pos), s + chunks[0], chunks[1..])
  }

  /** The bytes that have arrived when a client of the simple protocol stops waiting. */
  function SimpleReceived(r: S.Parse, s: Bytes, arrivals: Arrivals): Bytes
    requires r.ctx.stage < 2 ==> r.pos <= |s|
    decreases |arrivals|
  {
    if arrivals == [] || !r.status.NoEnoughData? then s else
    var s1 := s + arrivals[0].chunk;
    S.ActualEarly(S.Response, r.ctx, s1 + arrivals[0].stale, |s1|, r.pos);
    SimpleReceived(S.Actual(S.Response, r.ctx, s1 + arrivals[0].stale, |s1|, r.pos), s1, arrivals[1..])
  }

  /** A parser that succeeds has a payload inside the bytes it has seen. */
  lemma {:induction false} HttpSuccessInside(k: H.Kind, c: H.Ctx, s: Bytes, pos: nat)
    requires pos <= |s| && c.stage < 3 && H.ParseMsg(k, c, s, pos).status.Success?
    ensures var v := H.ParseMsg(k, c, s, pos).ctx.payloadView; 0 <= v.begin && v.end <= |s|
    decreases 3 - c.stage
  {
    if c.stage < 2 {
      HttpHeadNotLast(k, c, s, pos);
      hide H.Stage;
      var r := H.Stage(k, c, s, pos);
      HttpSuccessInside(k, r.ctx.(stage := c.stage + 1), s, r.pos);
    } else {
      var r := H.ParseBody(c, s, pos);
      var c3 := r.ctx.(stage := 3);
      assert H.ParseMsg(k, c3, s, r.pos) == H.Parse(Success, c3, r.pos);
    }
  }

  lemma HttpHeadNotLast(k: H.Kind, c: H.Ctx, s: Bytes, pos: nat)
    requires pos <= |s| && c.stage < 2
    ensures !H.Stage(k, c, s, pos).status.Success?
  {
    HM.HeadersAnswer(c, s, pos);
    hide H.ParseHeaders;
    hide H.RequestLine;
  }

  lemma {:induction false} SimpleSuccessInside(k: S.Kind, c: S.Ctx, s: Bytes, pos: nat)
    requires pos <= |s| && c.stage < S.Last(k) && S.Intended(k, c, s, pos).status.Success?
    ensures S.Intended(k, c, s, pos).ctx.payloadView.end <= |s|
    decreases S.Last(k) - c.stage
  {
    var r := S.Stage(k, c, s, pos);
    if r.ctx.stage < S.Last(k) {
      SimpleSuccessInside(k, r.ctx, s, r.pos);
    } else {
      assert S.Intended(k, r.ctx, s, r.pos) == S.Parse(Success, r.ctx, r.pos);
    }
  }

  // ---------------------------------------------------------------- the guard on prefixes

  /** Every cut of the stream meets the guard of the simple protocol, checked on the bytes alone. */
  predicate PrefixGuarded(k: S.Kind, s: Bytes, arrivals: Arrivals)
    decreases |arrivals|
  {
    arrivals == [] ||
    (S.Guard(k, S.NEW_CTX, s + arrivals[0].chunk, 0) && PrefixGuarded(k, s + arrivals[0].chunk, arrivals[1..]))
  }

  /** The guard of a call from scratch covers the call that continues. */
  lemma {:induction false} GuardResumes(k: S.Kind, c: S.Ctx, s: Bytes, t: Bytes, pos: nat)
    requires pos <= |s| && S.Guard(k, c, s + t, pos) && S.Intended(k, c, s, pos).status.NoEnoughData?
    ensures var r := S.Intended(k, c, s, pos); S.Guard(k, r.ctx, s + t, r.pos)
    decreases S.Last(k) - c.stage
  {
    if c.stage < S.Last(k) {
      S.StageExtends(k, c, s, t, pos);
      hide S.Stage;
      hide S.FieldGuard;
      var r := S.Stage(k, c, s, pos);
      if r.status.PartSuccess? {
        GuardResumes(k, r.ctx, s, t, r.pos);
      }
    }
  }

  // ---------------------------------------------------------------- HTTP at the server

  function HttpReader(idx: nat, q: H.Parse): Reader { Reader(q.status, idx, HttpCtx(q.ctx), q.pos) }

  /** The protocols from `idx` to `at` are others than the one at `at`. */
  predicate Ahead(protos: seq<Proto>, idx: nat, at: nat, p: Proto)
  {
    idx <= at < |protos| && protos[at] == p && forall i :: idx <= i < at ==> protos[i] != p
  }

  /** The protocols on a connection without context. */
  lemma FirstCalls(s: Bytes, stale: Bytes)
    ensures ParseWith(HttpProtocol, NullCtx, s + stale, |s|, 0) ==
            if |s| < HTTP_METHOD_MAX_LEN then Parsed(NoEnoughData, NullCtx, 0)
            else if IsHttp(s) then FromHttp(H.ParseMsg(H.Request, H.NEW_CTX, s, 0))
            else Parsed(TryAnotherProtocol, NullCtx, 0)
    ensures ParseWith(SimpleProtocol, NullCtx, s + stale, |s|, 0) ==
            if |s| < 4 then Parsed(NoEnoughData, NullCtx, 0)
            else if IsSimple(s) then FromSimple(S.Actual(S.Request, S.NEW_CTX, s + stale, |s|, 0))
            else Parsed(TryAnotherProtocol, NullCtx, 0)
  {
    hide H.MatchMethod;
    hide H.ParseMsg;
    hide S.Actual;
    hide S.IntAt;
    assert (s + stale)[0..|s|] == s && (s + stale)[..|s|] == s;
    if |s| >= 4 {
      S.WordExtends(s, stale, 0);
    }
  }

  lemma {:induction false} HttpLoop(protos: seq<Proto>, idx: nat, at: nat, s: Bytes, stale: Bytes)
    requires Ahead(protos, idx, at, HttpProtocol) && !IsSimple(s) && (|s| >= HTTP_METHOD_MAX_LEN ==> IsHttp(s))
    ensures var r := ReadLoop(protos, idx, NullCtx, s + stale, |s|, 0);
            if |s| < HTTP_METHOD_MAX_LEN
            then r == Reader(NoEnoughData, r.idx, NullCtx, 0) && idx <= r.idx <= at
            else r == HttpReader(at, H.ParseMsg(H.Request, H.NEW_CTX, s, 0))
    decreases at - idx
  {
    FirstCalls(s, stale);
    HttpNeverTriesAnother(H.Request, H.NEW_CTX, s, 0);
    hide ParseWith;
    hide IsHttp;
    hide IsSimple;
    if idx < at {
      HttpLoop(protos, idx + 1, at, s, stale);
    }
  }

  /** What the server has made of the bytes `s` of an HTTP stream. */
  ghost predicate HttpState(protos: seq<Proto>, r: Reader, s: Bytes, at: nat)
  {
    if r.ctx.NullCtx?
    then
      && |s| < HTTP_METHOD_MAX_LEN && r == Reader(NoEnoughData, r.idx, NullCtx, 0)
      && Ahead(protos, r.idx, at, HttpProtocol)
    else |s| >= HTTP_METHOD_MAX_LEN && r == HttpReader(at, H.ParseMsg(H.Request, H.NEW_CTX, s, 0))
  }

  lemma HttpArrival(protos: seq<Proto>, r: Reader, s: Bytes, a: S.Arrival, at: nat)
    requires HttpState(protos, r, s, at) && at < |protos| && protos[at].HttpProtocol? && r.status.NoEnoughData?
    requires var s1 := s + a.chunk; !IsSimple(s1) && (|s1| >= HTTP_METHOD_MAX_LEN ==> IsHttp(s1))
    requires r.pos <= |s|
    ensures var s1 := s + a.chunk;
            var r1 := ReadLoop(protos, r.idx, r.ctx, s1 + a.stale, |s1|, r.pos);
            HttpState(protos, r1, s1, at)
  {
    var s1 := s + a.chunk;
    var d := s1 + a.stale;
    if r.ctx.NullCtx? {
      HttpLoop(protos, r.idx, at, s1, a.stale);
    } else {
      HC.ParseResumes(H.Request, H.NEW_CTX, s, a.chunk, 0);
      HttpNeverTriesAnother(H.Request, r.ctx.h, s1, r.pos);
      assert d[..|s1|] == s1;
      hide H.ParseMsg;
    }
  }

  /** An HTTP stream at the server: for every cut and every position of HTTP among the protocols,
      the answer is that of one call on the whole stream; if that is a success whose payload ends
      with the stream, it comes when the whole stream has arrived and not before. */
  lemma {:induction false} HttpDelivery(protos: seq<Proto>, r: Reader, s: Bytes, arrivals: Arrivals, at: nat)
    requires S.Small(s, arrivals) && HttpState(protos, r, s, at) && at < |protos| && protos[at].HttpProtocol?
    requires r.status.NoEnoughData? ==> r.pos <= |s|
    requires var all := s + S.Stream(arrivals); IsHttp(all) && HC.CastHarmless(H.Request, H.NEW_CTX, all, 0)
    ensures var all := s + S.Stream(arrivals);
            var q := H.ParseMsg(H.Request, H.NEW_CTX, all, 0);
            && Feed(protos, r, s, arrivals) == HttpReader(at, q)
            && (q.status.Success? && q.ctx.payloadView.end == |all| ==> Received(protos, r, s, arrivals) == all)
    decreases |arrivals|
  {
    hide HC.CastHarmless;
    var all := s + S.Stream(arrivals);
    if !r.status.NoEnoughData? {
      HC.VerdictIsFinal(H.Request, H.NEW_CTX, s, S.Stream(arrivals), 0);
      if r.status.Success? {
        HttpSuccessInside(H.Request, H.NEW_CTX, s, 0);
      }
    } else if arrivals == [] {
      assert all == s;
    } else {
      var a, rest := arrivals[0], arrivals[1..];
      var s1 := s + a.chunk;
      assert s1 + S.Stream(rest) == all;
      VerdictsStand(HttpProtocol, s1, S.Stream(rest));
      NotBoth(all);
      if |s1| >= HTTP_METHOD_MAX_LEN {
        MethodsAreShort(s1, S.Stream(rest));
      }
      HttpArrival(protos, r, s, a, at);
      LoopPos(protos, r.idx, r.ctx, s1 + a.stale, |s1|, r.pos);
      HttpDelivery(protos, ReadLoop(protos, r.idx, r.ctx, s1 + a.stale, |s1|, r.pos), s1, rest, at);
    }
  }

  // ---------------------------------------------------------------- the simple protocol at the server

  function SimpleReader(idx: nat, q: S.Parse): Reader { Reader(q.status, idx, SimpleCtx(q.ctx), q.pos) }

  lemma {:induction false} SimpleLoop(protos: seq<Proto>, idx: nat, at: nat, s: Bytes, stale: Bytes)
    requires Ahead(protos, idx, at, SimpleProtocol) && !IsHttp(s) && (|s| >= 4 ==> IsSimple(s))
    requires |s + stale| < S.MAX_STORAGE && S.Guard(S.Request, S.NEW_CTX, s, 0)
    ensures var r := ReadLoop(protos, idx, NullCtx, s + stale, |s|, 0);
            if r.ctx.NullCtx?
            then |s| < HTTP_METHOD_MAX_LEN && r == Reader(NoEnoughData, r.idx, NullCtx, 0) && idx <= r.idx <= at
            else r == SimpleReader(at, S.Intended(S.Request, S.NEW_CTX, s, 0))
    decreases at - idx
  {
    hide S.Actual;
    hide S.Intended;
    hide S.Guard;
    hide ParseWith;
    hide IsHttp;
    hide IsSimple;
    FirstCalls(s, stale);
    assert (s + stale)[..|s|] == s;
    S.ActualIsIntended(S.Request, S.NEW_CTX, s + stale, |s|, 0);
    SimpleNeverTriesAnother(S.NEW_CTX, s + stale, |s|, 0);
    if idx < at {
      SimpleLoop(protos, idx + 1, at, s, stale);
    }
  }

  /** What the server has made of the bytes `s` of a stream of the simple protocol. */
  ghost predicate SimpleState(protos: seq<Proto>, r: Reader, s: Bytes, at: nat)
  {
    if r.ctx.NullCtx?
    then
      && |s| < HTTP_METHOD_MAX_LEN && r == Reader(NoEnoughData, r.idx, NullCtx, 0)
      && Ahead(protos, r.idx, at, SimpleProtocol)
    else r == SimpleReader(at, S.Intended(S.Request, S.NEW_CTX, s, 0))
  }

  lemma SimpleArrival(protos: seq<Proto>, r: Reader, s: Bytes, a: S.Arrival, at: nat)
    requires SimpleState(protos, r, s, at) && at < |protos| && protos[at].SimpleProtocol? && r.status.NoEnoughData?
    requires var s1 := s + a.chunk; !IsHttp(s1) && (|s1| >= 4 ==> IsSimple(s1))
    requires var s1 := s + a.chunk; |s1 + a.stale| < S.MAX_STORAGE && S.Guard(S.Request, S.NEW_CTX, s1, 0)
    requires r.pos <= |s|
    ensures var s1 := s + a.chunk;
            SimpleState(protos, ReadLoop(protos, r.idx, r.ctx, s1 + a.stale, |s1|, r.pos), s1, at)
  {
    hide S.Actual;
    hide S.Intended;
    hide S.Guard;
    var s1 := s + a.chunk;
    var d := s1 + a.stale;
    if r.ctx.NullCtx? {
      SimpleLoop(protos, r.idx, at, s1, a.stale);
    } else {
      S.IntendedExtends(S.Request, S.NEW_CTX, s, a.chunk, 0);
      GuardResumes(S.Request, S.NEW_CTX, s, a.chunk, 0);
      assert d[..|s1|] == s1;
      S.ActualIsIntended(S.Request, r.ctx.c, d, |s1|, r.pos);
      SimpleNeverTriesAnother(r.ctx.c, d, |s1|, r.pos);
    }
  }

  /** A stream of the simple protocol at the server, for every cut whose prefixes meet the guard,
      whatever stale bytes lie behind them. */
  lemma {:induction false} SimpleDelivery(protos: seq<Proto>, r: Reader, s: Bytes, arrivals: Arrivals, at: nat)
    requires S.Small(s, arrivals) && SimpleState(protos, r, s, at) && at < |protos| && protos[at].SimpleProtocol?
    requires r.status.NoEnoughData? ==> r.pos <= |s|
    requires PrefixGuarded(S.Request, s, arrivals)
    requires var all := s + S.Stream(arrivals); IsSimple(all) && |all| >= HTTP_METHOD_MAX_LEN
    ensures var all := s + S.Stream(arrivals);
            var q := S.Intended(S.Request, S.NEW_CTX, all, 0);
            && Feed(protos, r, s, arrivals) == SimpleReader(at, q)
            && (q.status.Success? && q.ctx.payloadView.end == |all| ==> Received(protos, r, s, arrivals) == all)
    decreases |arrivals|
  {
    hide S.Guard;
    hide S.Intended;
    hide ReadLoop;
    var all := s + S.Stream(arrivals);
    if !r.status.NoEnoughData? {
      S.IntendedExtends(S.Request, S.NEW_CTX, s, S.Stream(arrivals), 0);
      if r.status.Success? {
        SimpleSuccessInside(S.Request, S.NEW_CTX, s, 0);
      }
    } else if arrivals == [] {
      assert all == s;
    } else {
      var a, rest := arrivals[0], arrivals[1..];
      var s1 := s + a.chunk;
      assert s1 + S.Stream(rest) == all;
      VerdictsStand(HttpProtocol, s1, S.Stream(rest));
      NotBoth(all);
      if |s1| >= 4 {
        S.WordExtends(s1, S.Stream(rest), 0);
      }
      SimpleArrival(protos, r, s, a, at);
      LoopPos(protos, r.idx, r.ctx, s1 + a.stale, |s1|, r.pos);
      SimpleDelivery(protos, ReadLoop(protos, r.idx, r.ctx, s1 + a.stale, |s1|, r.pos), s1, rest, at);
    }
  }

  // ---------------------------------------------------------------- the client

  function Chunks(arrivals: Arrivals): seq<Bytes>
  {
    if arrivals == [] then [] else [arrivals[0].chunk] + Chunks(arrivals[1..])
  }

  lemma {:induction false} ChunksOfStream(arrivals: Arrivals)
    ensures Concat(Chunks(arrivals)) == S.Stream(arrivals) && |Chunks(arrivals)| == |arrivals|
  {
    if arrivals != [] {
      ChunksOfStream(arrivals[1..]);
      assert Chunks(arrivals)[1..] == Chunks(arrivals[1..]);
    }
  }

  /** An HTTP response at the client. */
  lemma {:induction false} HttpAnswer(r: H.Parse, s: Bytes, chunks: seq<Bytes>)
    requires r.pos <= |s|
    requires r == H.ParseMsg(H.Response, H.NEW_CTX, s, 0) || (s == [] && r == H.Parse(NoEnoughData, H.NEW_CTX, 0))
    ensures var all := s + Concat(chunks);
            var q := H.ParseMsg(H.Response, H.NEW_CTX, all, 0);
            q.status.Success? && q.ctx.payloadView.end == |all| && all != [] ==>
              HC.Feed(H.Response, r, s, chunks) == q && HttpReceived(r, s, chunks) == all
    decreases |chunks|
  {
    hide H.ParseMsg;
    var all := s + Concat(chunks);
    if chunks == [] || !H.ParseMsg(H.Response, H.NEW_CTX, all, 0).status.Success? {
      assert chunks == [] ==> all == s;
    } else if !r.status.NoEnoughData? {
      HC.SuccessIsHarmless(H.Response, H.NEW_CTX, all, 0);
      HC.VerdictIsFinal(H.Response, H.NEW_CTX, s, Concat(chunks), 0);
      if r.status.Success? {
        HttpSuccessInside(H.Response, H.NEW_CTX, s, 0);
      }
    } else {
      var s1 := s + chunks[0];
      assert s1 + Concat(chunks[1..]) == all;
      if r == H.ParseMsg(H.Response, H.NEW_CTX, s, 0) {
        HC.ParseResumes(H.Response, H.NEW_CTX, s, chunks[0], 0);
      }
      HttpAnswer(H.ParseMsg(H.Response, r.ctx, s1, r.pos), s1, chunks[1..]);
    }
  }

  /** A response of the simple protocol at the client. */
  lemma {:induction false} SimpleAnswer(r: S.Parse, s: Bytes, arrivals: Arrivals)
    requires r.pos <= |s| && S.Small(s, arrivals) && PrefixGuarded(S.Response, s, arrivals)
    requires r == S.Intended(S.Response, S.NEW_CTX, s, 0) || (s == [] && r == S.Parse(NoEnoughData, S.NEW_CTX, 0))
    ensures var all := s + S.Stream(arrivals);
            var q := S.Intended(S.Response, S.NEW_CTX, all, 0);
            q.status.Success? && q.ctx.payloadView.end == |all| && all != [] ==>
              S.Feed(S.Response, r, s, arrivals) == q && SimpleReceived(r, s, arrivals) == all
    decreases |arrivals|
  {
    hide S.Guard;
    hide S.Intended;
    hide S.Actual;
    var all := s + S.Stream(arrivals);
    if arrivals == [] {
      assert all == s;
    } else if !r.status.NoEnoughData? {
      S.IntendedExtends(S.Response, S.NEW_CTX, s, S.Stream(arrivals), 0);
      if r.status.Success? {
        SimpleSuccessInside(S.Response, S.NEW_CTX, s, 0);
      }
    } else {
      var a := arrivals[0];
      var s1 := s + a.chunk;
      var d := s1 + a.stale;
      assert d[..|s1|] == s1;
      assert s1 + S.Stream(arrivals[1..]) == all;
      S.IntendedExtends(S.Response, S.NEW_CTX, s, a.chunk, 0);
      if s != [] || r == S.Intended(S.Response, S.NEW_CTX, s, 0) {
        GuardResumes(S.Response, S.NEW_CTX, s, a.chunk, 0);
      }
      S.ActualIsIntended(S.Response, r.ctx, d, |s1|, r.pos);
      S.ActualEarly(S.Response, r.ctx, d, |s1|, r.pos);
      SimpleAnswer(S.Intended(S.Response, r.ctx, s1, r.pos), s1, arrivals[1..]);
    }
  }
}
