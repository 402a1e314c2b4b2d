/** Protocol selection: the loop of `data_read_callback` (net/pb_server.cpp:104-133) over the
    registered protocols, with both `parse_request` functions of the protocol classes. */
module Selection {
  import opened Bytes
  import opened Protocol
  import H = HttpSpec
  import M = HttpMeaning
  import S = SimpleSpec

  datatype Proto = HttpProtocol | SimpleProtocol

  /** `Context*`: null, or an object of one of the two classes. */
  datatype AnyCtx = NullCtx | HttpCtx(h: H.Ctx) | SimpleCtx(c: S.Ctx)

  /** The result of one `parse_request` of a protocol. */
  datatype Parsed = Parsed(status: Status, ctx: AnyCtx, pos: nat)

  /** A connection after the loop; an index behind the last protocol means that none is left. */
  datatype Reader = Reader(status: Status, idx: nat, ctx: AnyCtx, pos: nat)

  const HTTP_METHOD_MAX_LEN := 7

  function FromHttp(r: H.Parse): Parsed { Parsed(r.status, HttpCtx(r.ctx), r.pos) }

  function FromSimple(r: S.Parse): Parsed { Parsed(r.status, SimpleCtx(r.ctx), r.pos) }

  /** `HTTPProtocol::parse_request` */
  function HttpParse(ctx: AnyCtx, d: Bytes, w: nat, pos: nat): Parsed
    requires pos <= w <= |d|
  {
    match ctx
    case NullCtx =>
      if w - pos < HTTP_METHOD_MAX_LEN then Parsed(NoEnoughData, ctx, pos)
      else if H.MatchMethod(d[pos..w], 0) == -1 then Parsed(TryAnotherProtocol, ctx, pos)
      else FromHttp(H.ParseMsg(H.Request, H.NEW_CTX, d[..w], pos))
    case HttpCtx(h) => FromHttp(H.ParseMsg(H.Request, h, d[..w], pos))
    case SimpleCtx(_) => Parsed(Error, ctx, pos)
  }

  /** `SimpleProtocol::parse_request` */
  function SimpleParse(ctx: AnyCtx, d: Bytes, w: nat, pos: nat): Parsed
    requires pos <= w <= |d|
  {
    match ctx
    case NullCtx =>
      if w - pos < 4 then Parsed(NoEnoughData, ctx, pos)
      else if S.IntAt(d, pos) != S.MAGIC_NUM then Parsed(TryAnotherProtocol, ctx, pos)
      else FromSimple(S.Actual(S.Request, S.NEW_CTX, d, w, pos))
    case SimpleCtx(c) => FromSimple(S.Actual(S.Request, c, d, w, pos))
    case HttpCtx(_) => Parsed(Error, ctx, pos)
  }

  function ParseWith(p: Proto, ctx: AnyCtx, d: Bytes, w: nat, pos: nat): Parsed
    requires pos <= w <= |d|
  {
    if p.HttpProtocol? then HttpParse(ctx, d, w, pos) else SimpleParse(ctx, d, w, pos)
  }

  /** The context is an object of the protocol's own class. */
  predicate Matches(p: Proto, ctx: AnyCtx)
  {
    (ctx.HttpCtx? ==> p.HttpProtocol?) && (ctx.SimpleCtx? ==> p.SimpleProtocol?)
  }

  predicate Belongs(protos: seq<Proto>, idx: nat, ctx: AnyCtx)
  {
    ctx.NullCtx? || (idx < |protos| && Matches(protos[idx], ctx))
  }

  lemma {:induction false} HttpNeverTriesAnother(k: H.Kind, c: H.Ctx, s: Bytes, pos: nat)
    requires pos <= |s|
    ensures !H.ParseMsg(k, c, s, pos).status.TryAnotherProtocol?
    decreases 3 - c.stage
  {
    if c.stage < 3 {
      M.HeadersAnswer(c, s, pos);
      hide H.ParseHeaders;
      var r := H.Stage(k, c, s, pos);
      if r.status.PartSuccess? {
        HttpNeverTriesAnother(k, r.ctx.(stage := c.stage + 1), s, r.pos);
      }
    }
  }

  lemma {:induction false} SimpleNeverTriesAnother(c: S.Ctx, d: Bytes, w: nat, pos: nat)
    requires w <= |d| && (c.stage < 2 ==> pos <= w)
    ensures !S.Actual(S.Request, c, d, w, pos).status.TryAnotherProtocol?
    decreases S.Last(S.Request) - c.stage
  {
    if c.stage < S.Last(S.Request) {
      var r := if c.stage < 2 then S.Stage(S.Request, c, d[..w], pos) else S.ActualField(S.Request, c, d, w, pos);
      if r.status.PartSuccess? {
        SimpleNeverTriesAnother(r.ctx, d, w, r.pos);
      }
    }
  }

  /** A protocol passes a connection on exactly when it has enough bytes to know that they are not
      its own, and then leaves no trace. */
  lemma PassesOn(p: Proto, ctx: AnyCtx, d: Bytes, w: nat, pos: nat)
    requires pos <= w <= |d|
    ensures var r := ParseWith(p, ctx, d, w, pos);
            r.status.TryAnotherProtocol? ==> ctx.NullCtx? && r == Parsed(TryAnotherProtocol, NullCtx, pos)
    ensures var r := ParseWith(p, ctx, d, w, pos);
            Matches(p, ctx) ==> Matches(p, r.ctx) && (!ctx.NullCtx? ==> !r.ctx.NullCtx?)
  {
    match ctx
    case NullCtx =>
      HttpNeverTriesAnother(H.Request, H.NEW_CTX, d[..w], pos);
      SimpleNeverTriesAnother(S.NEW_CTX, d, w, pos);
    case HttpCtx(h) => HttpNeverTriesAnother(H.Request, h, d[..w], pos);
    case SimpleCtx(c) => SimpleNeverTriesAnother(c, d, w, pos);
  }

  /** The loop over the protocols. */
  function ReadLoop(protos: seq<Proto>, idx: nat, ctx: AnyCtx, d: Bytes, w: nat, pos: nat): Reader
    requires pos <= w <= |d|
    decreases |protos| - idx
  {
    if idx >= |protos| then Reader(TryAnotherProtocol, idx, ctx, pos) else
    var r := ParseWith(protos[idx], ctx, d, w, pos);
    if r.status.TryAnotherProtocol? then ReadLoop(protos, idx + 1, r.ctx, d, w, pos)
    else Reader(r.status, idx, r.ctx, r.pos)
  }

  /** The index only grows, and not at all once there is a context; a context always belongs to the
      protocol at the index, so no call of the loop meets a context of the other class and the
      downcast never fails. */
  lemma {:induction false} LoopKeepsBelonging(protos: seq<Proto>, idx: nat, ctx: AnyCtx, d: Bytes, w: nat, pos: nat)
    requires pos <= w <= |d| && Belongs(protos, idx, ctx)
    ensures var r := ReadLoop(protos, idx, ctx, d, w, pos);
            && r.idx >= idx && Belongs(protos, r.idx, r.ctx)
            && (!ctx.NullCtx? ==> r.idx == idx && !r.ctx.NullCtx?)
    decreases |protos| - idx
  {
    hide ParseWith;
    if idx < |protos| {
      PassesOn(protos[idx], ctx, d, w, pos);
      var r := ParseWith(protos[idx], ctx, d, w, pos);
      if r.status.TryAnotherProtocol? {
        LoopKeepsBelonging(protos, idx + 1, r.ctx, d, w, pos);
      }
    }
  }

  // ---------------------------------------------------------------- the winner

  /** What the first bytes of a stream decide. */
  predicate IsHttp(s: Bytes) { |s| >= HTTP_METHOD_MAX_LEN && H.MatchMethod(s, 0) != -1 }

  predicate IsSimple(s: Bytes) { |s| >= 4 && S.IntAt(s, 0) == S.MAGIC_NUM }

  /** The protocol has enough bytes of `s` to dismiss it. */
  predicate Dismissed(p: Proto, s: Bytes)
  {
    if p.HttpProtocol? then |s| >= HTTP_METHOD_MAX_LEN && H.MatchMethod(s, 0) == -1
    else |s| >= 4 && S.IntAt(s, 0) != S.MAGIC_NUM
  }

  lemma MethodsAreShort(s: Bytes, t: Bytes)
    requires |s| >= HTTP_METHOD_MAX_LEN
    ensures H.MatchMethod(s + t, 0) == -1 <==> H.MatchMethod(s, 0) == -1
  {
    forall j | 0 <= j < |H.METHODS| ensures H.METHODS[j] <= s + t <==> H.METHODS[j] <= s {
      MethodLength(j);
      PrefixOfLonger(H.METHODS[j], s, t);
    }
  }

  lemma MethodLength(j: nat)
    requires j < |H.METHODS|
    ensures |H.METHODS[j]| <= HTTP_METHOD_MAX_LEN
  {
  }

  lemma PrefixOfLonger(m: Bytes, s: Bytes, t: Bytes)
    requires |m| <= |s|
    ensures m <= s + t <==> m <= s
  {
    assert (s + t)[..|m|] == s[..|m|];
  }

  lemma VerdictsStand(p: Proto, s: Bytes, t: Bytes)
    ensures IsHttp(s) ==> IsHttp(s + t)
    ensures IsSimple(s) ==> IsSimple(s + t)
    ensures Dismissed(p, s) ==> Dismissed(p, s + t)
  {
    if |s| >= HTTP_METHOD_MAX_LEN {
      MethodsAreShort(s, t);
    }
    if |s| >= 4 {
      S.WordExtends(s, t, 0);
    }
  }

  /** No stream is taken for both protocols. */
  lemma NotBoth(s: Bytes)
    ensures !(IsHttp(s) && IsSimple(s))
  {
    if IsHttp(s) && |s| >= 4 {
      var m := H.METHODS[H.MatchMethod(s, 0)];
      assert s[0] == m[0];
      assert 'A' <= s[0] <= 'Z';
      FirstByte(s);
    }
  }

  lemma FirstByte(s: Bytes)
    requires |s| >= 4 && 'A' <= s[0] <= 'Z'
    ensures S.IntAt(s, 0) != S.MAGIC_NUM
  {
  }

  /** CONNECT is a method of the enumeration, but no method that is tried: HTTP passes it on. */
  lemma ConnectIsUnknown(stale: Bytes)
    ensures var s := "CONNECT / HTTP/1.1\r\n\r\n";
            && H.MatchMethod(s, 0) == -1
            && HttpParse(NullCtx, s + stale, |s|, 0) == Parsed(TryAnotherProtocol, NullCtx, 0)
  {
    var s := "CONNECT / HTTP/1.1\r\n\r\n";
    assert s[0] == 'C';
    forall j | 0 <= j < |H.METHODS| ensures !(H.METHODS[j] <= s) {
      assert H.METHODS[j][0] != 'C';
    }
    assert (s + stale)[0..|s|] == s;
  }

  // ---------------------------------------------------------------- feeding a connection

  /** No answer `NoEnoughData` leaves the read index behind the received bytes. */
  lemma ParsePos(p: Proto, ctx: AnyCtx, d: Bytes, w: nat, pos: nat)
    requires pos <= w <= |d| < S.MAX_STORAGE
    ensures var r := ParseWith(p, ctx, d, w, pos); r.status.NoEnoughData? ==> r.pos <= w
  {
    hide S.Actual;
    hide S.Guard;
    hide S.Intended;
    hide H.ParseMsg;
    match ctx
    case NullCtx => S.ActualIsIntended(S.Request, S.NEW_CTX, d, w, pos);
    case SimpleCtx(c) => S.ActualIsIntended(S.Request, c, d, w, pos);
    case HttpCtx(_) =>
  }

  lemma {:induction false} LoopPos(protos: seq<Proto>, idx: nat, ctx: AnyCtx, d: Bytes, w: nat, pos: nat)
    requires pos <= w <= |d| < S.MAX_STORAGE
    ensures var r := ReadLoop(protos, idx, ctx, d, w, pos); r.status.NoEnoughData? ==> r.pos <= w
    decreases |protos| - idx
  {
    hide ParseWith;
    if idx < |protos| {
      ParsePos(protos[idx], ctx, d, w, pos);
      var r := ParseWith(protos[idx], ctx, d, w, pos);
      if r.status.TryAnotherProtocol? {
        LoopPos(protos, idx + 1, r.ctx, d, w, pos);
      }
    }
  }

  /** The loop runs after each arrival until it answers something other than `NoEnoughData`. */
  function Feed(protos: seq<Proto>, r: Reader, s: Bytes, arrivals: seq<S.Arrival>): Reader
    requires S.Small(s, arrivals) && (r.status.NoEnoughData? ==> r.pos <= |s|)
    decreases |arrivals|
  {
    if arrivals == [] || !r.status.NoEnoughData? then r else
    var s1 := s + arrivals[0].chunk;
    LoopPos(protos, r.idx, r.ctx, s1 + arrivals[0].stale, |s1|, r.pos);
    Feed(protos, ReadLoop(protos, r.idx, r.ctx, s1 + arrivals[0].stale, |s1|, r.pos), s1, arrivals[1..])
  }

  /** What the bytes `s` have decided about a connection that waits or has come to an end. */
  ghost predicate Sane(protos: seq<Proto>, r: Reader, s: Bytes)
  {
    && r.idx <= |protos| && Belongs(protos, r.idx, r.ctx)
    && (forall i :: 0 <= i < r.idx ==> Dismissed(protos[i], s))
    && (r.ctx.HttpCtx? ==> IsHttp(s)) && (r.ctx.SimpleCtx? ==> IsSimple(s))
    && (r.ctx.NullCtx? ==> r.pos == 0)
    && (r.ctx.NullCtx? && r.idx < |protos| ==> |s| < HTTP_METHOD_MAX_LEN && r.status.NoEnoughData?)
  }

  lemma SaneParse(p: Proto, ctx: AnyCtx, s: Bytes, stale: Bytes, pos: nat)
    requires pos <= |s| && Matches(p, ctx) && (ctx.NullCtx? ==> pos == 0)
    requires (ctx.HttpCtx? ==> IsHttp(s)) && (ctx.SimpleCtx? ==> IsSimple(s))
    ensures var r := ParseWith(p, ctx, s + stale, |s|, pos);
            && Matches(p, r.ctx)
            && (r.ctx.HttpCtx? ==> IsHttp(s)) && (r.ctx.SimpleCtx? ==> IsSimple(s))
            && (r.status.TryAnotherProtocol? ==> r.ctx.NullCtx? && Dismissed(p, s))
            && (r.ctx.NullCtx? && !r.status.TryAnotherProtocol? ==>
                  r.pos == 0 && |s| < HTTP_METHOD_MAX_LEN && r.status.NoEnoughData?)
  {
    PassesOn(p, ctx, s + stale, |s|, pos);
    hide H.ParseMsg;
    hide S.Actual;
    hide H.MatchMethod;
    assert (s + stale)[0..|s|] == s;
    if |s| >= 4 {
      S.WordExtends(s, stale, 0);
    }
  }

  lemma {:induction false} SaneLoop(protos: seq<Proto>, idx: nat, ctx: AnyCtx, s: Bytes, stale: Bytes, pos: nat)
    requires pos <= |s| && idx <= |protos| && Belongs(protos, idx, ctx) && (ctx.NullCtx? ==> pos == 0)
    requires forall i :: 0 <= i < idx ==> Dismissed(protos[i], s)
    requires (ctx.HttpCtx? ==> IsHttp(s)) && (ctx.SimpleCtx? ==> IsSimple(s))
    ensures Sane(protos, ReadLoop(protos, idx, ctx, s + stale, |s|, pos), s)
    decreases |protos| - idx
  {
    hide ParseWith;
    hide IsHttp;
    hide IsSimple;
    hide Dismissed;
    if idx < |protos| {
      SaneParse(protos[idx], ctx, s, stale, pos);
      PassesOn(protos[idx], ctx, s + stale, |s|, pos);
      var r := ParseWith(protos[idx], ctx, s + stale, |s|, pos);
      if r.status.TryAnotherProtocol? {
        SaneLoop(protos, idx + 1, r.ctx, s, stale, pos);
      }
    }
  }

  lemma {:induction false} SaneFeed(protos: seq<Proto>, r: Reader, s: Bytes, arrivals: seq<S.Arrival>)
    returns (got: Bytes)
    requires S.Small(s, arrivals) && (r.status.NoEnoughData? ==> r.pos <= |s|) && Sane(protos, r, s)
    ensures got <= s + S.Stream(arrivals) && Sane(protos, Feed(protos, r, s, arrivals), got)
    ensures Feed(protos, r, s, arrivals).status.NoEnoughData? ==> got == s + S.Stream(arrivals)
    decreases |arrivals|
  {
    if arrivals == [] || !r.status.NoEnoughData? {
      got := s;
      assert arrivals == [] ==> s + S.Stream(arrivals) == s;
    } else {
      var s1 := s + arrivals[0].chunk;
      assert s1 + S.Stream(arrivals[1..]) == s + S.Stream(arrivals);
      forall i | 0 <= i < r.idx ensures Dismissed(protos[i], s1) {
        VerdictsStand(protos[i], s, arrivals[0].chunk);
      }
      VerdictsStand(HttpProtocol, s, arrivals[0].chunk);
      hide ReadLoop;
      hide Dismissed;
      hide IsHttp;
      hide IsSimple;
      SaneLoop(protos, r.idx, r.ctx, s1, arrivals[0].stale, r.pos);
      LoopPos(protos, r.idx, r.ctx, s1 + arrivals[0].stale, |s1|, r.pos);
      got := SaneFeed(protos, ReadLoop(protos, r.idx, r.ctx, s1 + arrivals[0].stale, |s1|, r.pos), s1, arrivals[1..]);
    }
  }

  const START := Reader(NoEnoughData, 0, NullCtx, 0)

  /** The winner is the same for every chunking and either order of registration: on any stream of
      at least seven bytes, HTTP gets the connection exactly if the stream starts with one of the
      methods tried, simple exactly if it starts with the magic number, and nobody otherwise. */
  lemma WinnerIsFixed(protos: seq<Proto>, arrivals: seq<S.Arrival>)
    requires protos == [HttpProtocol, SimpleProtocol] || protos == [SimpleProtocol, HttpProtocol]
    requires S.Small([], arrivals) && |S.Stream(arrivals)| >= HTTP_METHOD_MAX_LEN
    ensures var r := Feed(protos, START, [], arrivals);
            var s := S.Stream(arrivals);
            && (r.ctx.HttpCtx? <==> IsHttp(s))
            && (r.ctx.SimpleCtx? <==> IsSimple(s))
            && (r.ctx.NullCtx? <==> r.idx == 2)
  {
    var s := S.Stream(arrivals);
    assert [] + s == s;
    assert Sane(protos, START, []) by { assert |protos| == 2; }
    var got := SaneFeed(protos, START, [], arrivals);
    var r := Feed(protos, START, [], arrivals);
    hide Feed;
    var rest := s[|got|..];
    assert got + rest == s;
    VerdictsStand(HttpProtocol, got, rest);
    VerdictsStand(SimpleProtocol, got, rest);
    NotBoth(s);
    if r.ctx.NullCtx? {
      assert r.idx == 2;
      assert Dismissed(protos[0], got) && Dismissed(protos[1], got);
    }
  }
}
