/** The packers of protocols/simple.cpp and their inverses. */
module SimpleRoundTrip {
  import opened Bytes
  import opened Protocol
  import opened BigEndian
  import opened SimpleSpec

  function PathOf(service: Bytes, methodName: Bytes): Bytes { service + "/" + methodName }

  /** `pack_request`: magic, connection type, path, and the length of the payload in the data lane. */
  function RequestHead(service: Bytes, methodName: Bytes, t: ConnType, n: nat): Bytes
    requires |PathOf(service, methodName)| < TWO_32 && n < TWO_32
  {
    EncodeInt(MAGIC_NUM) + EncodeInt(ConnCode(t)) + Encode(|PathOf(service, methodName)|)
    + PathOf(service, methodName) + Encode(n)
  }

  /** `pack_response`, the data lane. */
  function ResponseHead(t: ConnType, status: RpcStatus, n: nat): Bytes
    requires n < TWO_32
  {
    EncodeInt(MAGIC_NUM) + EncodeInt(ConnCode(t)) + EncodeInt(StatusCode(status)) + Encode(n)
  }

  function PackRequest(service: Bytes, methodName: Bytes, t: ConnType, payload: Bytes): Bytes
    requires |PathOf(service, methodName)| < TWO_32 && |payload| < TWO_32
  {
    RequestHead(service, methodName, t, |payload|) + payload
  }

  function PackResponse(t: ConnType, status: RpcStatus, payload: Bytes): Bytes
    requires |payload| < TWO_32
  {
    ResponseHead(t, status, |payload|) + payload
  }

  /** One step of either parser on a complete field or word. */
  lemma WordHere(s: Bytes, pos: nat, n: int)
    requires IsInt32(n) && pos + 4 <= |s| && s[pos..pos + 4] == EncodeInt(n)
    ensures IntAt(s, pos) == n
  {
    DecodeOfEncodeInt(n);
  }

  lemma LengthHere(s: Bytes, pos: nat, n: nat)
    requires n < TWO_32 && pos + 4 <= |s| && s[pos..pos + 4] == Encode(n)
    ensures LenAt(s, pos) == n
  {
    DecodeOfEncode(n);
  }

  /** The payload field at the end of a message, from the stage that reads it. */
  lemma PayloadHere(k: Kind, c: Ctx, s: Bytes, pos: nat, payload: Bytes)
    requires c.stage == Last(k) - 1 && |payload| < TWO_32
    requires pos <= |s| && s[pos..] == Encode(|payload|) + payload
    ensures Guard(k, c, s, pos)
    ensures Intended(k, c, s, pos) ==
            Parse(Success, c.(stage := Last(k), payloadView := View(pos + 4, |s|)), |s|)
    ensures s[pos + 4..] == payload
  {
    var n := |payload|;
    assert s[pos..pos + 4] == s[pos..][..4] == Encode(n);
    assert s[pos + 4..] == s[pos..][4..];
    LengthHere(s, pos, n);
    hide Encode;
    hide LenAt;
    assert Stage(k, c, s, pos) == TakePayload(k, c, n, pos);
  }

  /** The first two words of a request. */
  lemma RequestStart(s: Bytes, t: ConnType)
    requires |s| >= 8 && s[0..4] == EncodeInt(MAGIC_NUM) && s[4..8] == EncodeInt(ConnCode(t))
    ensures var c := NEW_CTX.(stage := 2, connType := t);
            && Intended(Request, NEW_CTX, s, 0) == Intended(Request, c, s, 8)
            && (Guard(Request, NEW_CTX, s, 0) <==> Guard(Request, c, s, 8))
  {
    WordHere(s, 0, MAGIC_NUM);
    WordHere(s, 4, ConnCode(t));
    hide IntAt;
    hide EncodeInt;
    var c1 := NEW_CTX.(stage := 1);
    assert Stage(Request, NEW_CTX, s, 0) == Parse(PartSuccess, c1, 4);
    assert Stage(Request, c1, s, 4) == Parse(PartSuccess, NEW_CTX.(stage := 2, connType := t), 8);
  }

  lemma OneStage(k: Kind, c: Ctx, s: Bytes, pos: nat)
    requires pos <= |s| && 2 <= c.stage < Last(k)
    ensures var r := Stage(k, c, s, pos);
            && Intended(k, c, s, pos) == (if r.status.PartSuccess? then Intended(k, r.ctx, s, r.pos) else r)
            && (Guard(k, c, s, pos) <==>
                FieldGuard(s, pos) && (r.status.PartSuccess? ==> Guard(k, r.ctx, s, r.pos)))
  {
    hide Stage;
    hide FieldGuard;
  }

  /** The path field of a complete request. */
  lemma PathHere(c: Ctx, s: Bytes, pos: nat, path: Bytes)
    requires c.stage == 2 && |path| < TWO_32
    requires pos + 4 + |path| <= |s| && s[pos..pos + 4] == Encode(|path|) && s[pos + 4..pos + 4 + |path|] == path
    ensures var r := TakePath(c, path, pos);
            if r.status.PartSuccess?
            then && Intended(Request, c, s, pos) == Intended(Request, r.ctx, s, r.pos)
                 && (Guard(Request, c, s, pos) <==> Guard(Request, r.ctx, s, r.pos))
            else Intended(Request, c, s, pos) == r && Guard(Request, c, s, pos)
  {
    hide TakePath;
    hide Guard;
    hide Intended;
    hide Stage;
    hide FieldGuard;
    OneStage(Request, c, s, pos);
    PathStage(c, s, pos, path);
  }

  lemma PathStage(c: Ctx, s: Bytes, pos: nat, path: Bytes)
    requires c.stage == 2 && |path| < TWO_32
    requires pos + 4 + |path| <= |s| && s[pos..pos + 4] == Encode(|path|) && s[pos + 4..pos + 4 + |path|] == path
    ensures FieldGuard(s, pos) && Stage(Request, c, s, pos) == TakePath(c, path, pos)
  {
    LengthHere(s, pos, |path|);
    hide LenAt;
    hide TakePath;
  }

  /** The path is split at its first slash, which is the packed one exactly when `service` has none. */
  lemma PathSplit(c: Ctx, service: Bytes, methodName: Bytes, pos: nat)
    ensures var path := PathOf(service, methodName);
            var r := TakePath(c, path, pos);
            && r.status.PartSuccess? && r.ctx.stage == 3 && r.pos == pos + 4 + |path|
            && r.ctx.connType == c.connType
            && (r.ctx.service == service && r.ctx.methodName == methodName <==> '/' !in service)
  {
    var path := PathOf(service, methodName);
    var i := IndexOf(path, '/', 0, |path|);
    assert path[|service|] == '/';
    assert i != -1 && i <= |service|;
    if '/' in service {
      var j :| 0 <= j < |service| && service[j] == '/';
      assert path[j] == '/';
      assert |path[..i]| < |service|;
    } else {
      assert forall j :: 0 <= j < |service| ==> path[j] == service[j];
      assert i == |service|;
      assert path[..i] == service && path[i + 1..] == methodName;
    }
  }

  /** The parser recovers what was packed and consumes the whole message. */
  predicate Recovers(r: Parse, s: Bytes, service: Bytes, methodName: Bytes, t: ConnType, payload: Bytes)
  {
    && r.status.Success? && r.pos == |s|
    && r.ctx.service == service && r.ctx.methodName == methodName && r.ctx.connType == t
    && r.ctx.payloadView.In(s) && r.ctx.payloadView.Str(s) == payload
    && r.ctx.payloadView.end == |s|
  }

  lemma RequestLayout(service: Bytes, methodName: Bytes, t: ConnType, payload: Bytes)
    requires |PathOf(service, methodName)| < TWO_32 && |payload| < TWO_32
    ensures var s, path := PackRequest(service, methodName, t, payload), PathOf(service, methodName);
            && |s| == 16 + |path| + |payload|
            && s[0..4] == EncodeInt(MAGIC_NUM) && s[4..8] == EncodeInt(ConnCode(t))
            && s[8..12] == Encode(|path|) && s[12..12 + |path|] == path
            && s[12 + |path|..] == Encode(|payload|) + payload
  {
    var path := PathOf(service, methodName);
    Layout(EncodeInt(MAGIC_NUM), EncodeInt(ConnCode(t)), Encode(|path|), path, Encode(|payload|), payload);
  }

  lemma Layout(a: Bytes, b: Bytes, c: Bytes, p: Bytes, d: Bytes, y: Bytes)
    requires |a| == 4 && |b| == 4 && |c| == 4
    ensures var s := a + b + c + p + d + y;
            && s[0..4] == a && s[4..8] == b && s[8..12] == c
            && s[12..12 + |p|] == p && s[12 + |p|..] == d + y
  {
  }

  /** The reference on a packed request. */
  lemma RequestIntended(service: Bytes, methodName: Bytes, t: ConnType, payload: Bytes)
    requires |PathOf(service, methodName)| < TWO_32 && |payload| < TWO_32
    ensures var s := PackRequest(service, methodName, t, payload);
            && Guard(Request, NEW_CTX, s, 0)
            && (Recovers(Intended(Request, NEW_CTX, s, 0), s, service, methodName, t, payload) <==> '/' !in service)
  {
    hide Guard;
    hide Intended;
    var s, path := PackRequest(service, methodName, t, payload), PathOf(service, methodName);
    RequestLayout(service, methodName, t, payload);
    hide PackRequest;
    hide PathOf;
    hide EncodeInt;
    hide Encode;
    hide TakePath;
    RequestStart(s, t);
    var c := NEW_CTX.(stage := 2, connType := t);
    PathHere(c, s, 8, path);
    PathSplit(c, service, methodName, 8);
    var r := TakePath(c, path, 8);
    PayloadHere(Request, r.ctx, s, r.pos, payload);
  }

  /** Request round trip, of the code itself and whatever stale bytes follow: service, method,
      connection type and payload come back if and only if the service has no slash. */
  lemma RequestRoundTrip(service: Bytes, methodName: Bytes, t: ConnType, payload: Bytes, stale: Bytes)
    requires |PathOf(service, methodName)| < TWO_32 && |payload| < TWO_32 && |stale| < TWO_32
    ensures var s := PackRequest(service, methodName, t, payload);
            var r := Actual(Request, NEW_CTX, s + stale, |s|, 0);
            && r == Intended(Request, NEW_CTX, s, 0)
            && (Recovers(r, s, service, methodName, t, payload) <==> '/' !in service)
  {
    hide Guard;
    hide Intended;
    hide Actual;
    var s := PackRequest(service, methodName, t, payload);
    assert |s| < TWO_32 * 3 by { RequestLayout(service, methodName, t, payload); }
    RequestIntended(service, methodName, t, payload);
    hide PackRequest;
    assert (s + stale)[..|s|] == s;
    ActualIsIntended(Request, NEW_CTX, s + stale, |s|, 0);
  }

  lemma ResponseLayout(t: ConnType, status: RpcStatus, payload: Bytes)
    requires |payload| < TWO_32
    ensures var s := PackResponse(t, status, payload);
            && |s| == 16 + |payload|
            && s[0..4] == EncodeInt(MAGIC_NUM) && s[4..8] == EncodeInt(ConnCode(t))
            && s[8..12] == EncodeInt(StatusCode(status))
            && s[12..] == Encode(|payload|) + payload
  {
    var a, b, c, d := EncodeInt(MAGIC_NUM), EncodeInt(ConnCode(t)), EncodeInt(StatusCode(status)), Encode(|payload|);
    Layout(a, b, c, [], d, payload);
    assert a + b + c + [] + d + payload == a + b + c + d + payload;
  }

  lemma ResponseStart(s: Bytes, t: ConnType, status: RpcStatus)
    requires |s| >= 12 && s[0..4] == EncodeInt(MAGIC_NUM) && s[4..8] == EncodeInt(ConnCode(t))
    requires s[8..12] == EncodeInt(StatusCode(status))
    ensures var c := NEW_CTX.(stage := 2, connType := t, rpcStatus := status);
            && Intended(Response, NEW_CTX, s, 0) == Intended(Response, c, s, 12)
            && (Guard(Response, NEW_CTX, s, 0) <==> Guard(Response, c, s, 12))
  {
    WordHere(s, 0, MAGIC_NUM);
    WordHere(s, 4, ConnCode(t));
    WordHere(s, 8, StatusCode(status));
    hide IntAt;
    hide EncodeInt;
    var c1 := NEW_CTX.(stage := 1);
    assert Stage(Response, NEW_CTX, s, 0) == Parse(PartSuccess, c1, 4);
    assert Stage(Response, c1, s, 4) ==
           Parse(PartSuccess, NEW_CTX.(stage := 2, connType := t, rpcStatus := status), 12);
  }

  /** Response round trip: every connection type, status and payload comes back. */
  lemma ResponseRoundTrip(t: ConnType, status: RpcStatus, payload: Bytes, stale: Bytes)
    requires |payload| < TWO_32 && |stale| < TWO_32
    ensures var s := PackResponse(t, status, payload);
            var r := Actual(Response, NEW_CTX, s + stale, |s|, 0);
            && r == Intended(Response, NEW_CTX, s, 0)
            && Recovers(r, s, [], [], t, payload) && r.ctx.rpcStatus == status
  {
    var s := PackResponse(t, status, payload);
    ResponseLayout(t, status, payload);
    hide PackResponse;
    hide EncodeInt;
    hide Encode;
    ResponseStart(s, t, status);
    var c := NEW_CTX.(stage := 2, connType := t, rpcStatus := status);
    PayloadHere(Response, c, s, 12, payload);
    assert (s + stale)[..|s|] == s;
    hide Guard;
    hide Intended;
    hide Actual;
    ActualIsIntended(Response, NEW_CTX, s + stale, |s|, 0);
  }

  /** Without the guard chunking matters: a request for the path "/" is understood as a whole, but
      when its first 12 bytes arrive alone, over storage that holds a zero byte behind them, the
      code takes the stale byte as the path and answers `Error`. */
  lemma GuardIsNeeded()
    ensures var s := PackRequest([], [], Short, []);
            var cut := [Arrival(s[..12], "\0"), Arrival(s[12..], [])];
            && Stream(cut) == s
            && Actual(Request, NEW_CTX, s, |s|, 0).status.Success?
            && Feed(Request, Parse(NoEnoughData, NEW_CTX, 0), [], cut).status.Error?
  {
    hide Actual;
    hide Guard;
    hide Intended;
    var s := PackRequest([], [], Short, []);
    RequestLayout([], [], Short, []);
    RequestRoundTrip([], [], Short, [], []);
    assert s + [] == s;
    hide PackRequest;
    var cut := [Arrival(s[..12], "\0"), Arrival(s[12..], [])];
    assert cut[1..] == [Arrival(s[12..], [])] && cut[1..][1..] == [];
    assert Stream(cut[1..]) == s[12..] + [];
    assert s[..12] + s[12..] == s;
    var h := s[..12];
    assert [] + h == h;
    var d := h + "\0";
    assert h[8..12] == s[8..12] && h[0..4] == s[0..4] && h[4..8] == s[4..8];
    StaleSlash(h, d);
    var r := Parse(NoEnoughData, NEW_CTX, 0);
    assert Feed(Request, r, [], cut) == Feed(Request, Actual(Request, NEW_CTX, d, 12, 0), h, cut[1..]) by {
      ActualEarly(Request, NEW_CTX, d, 12, 0);
    }
  }

  lemma StaleSlash(h: Bytes, d: Bytes)
    requires |h| == 12 && d == h + "\0"
    requires h[0..4] == EncodeInt(MAGIC_NUM) && h[4..8] == EncodeInt(ConnCode(Short)) && h[8..12] == Encode(1)
    ensures Actual(Request, NEW_CTX, d, 12, 0).status.Error?
  {
    assert d[..12] == h;
    WordHere(h, 0, MAGIC_NUM);
    WordHere(h, 4, 0);
    assert d[8..12] == h[8..12];
    LengthHere(d, 8, 1);
    hide IntAt;
    hide LenAt;
    hide EncodeInt;
    hide Encode;
    var c1 := NEW_CTX.(stage := 1);
    var c2 := NEW_CTX.(stage := 2);
    assert Stage(Request, NEW_CTX, h, 0) == Parse(PartSuccess, c1, 4);
    assert Stage(Request, c1, h, 4) == Parse(PartSuccess, c2, 8);
    assert Actual(Request, NEW_CTX, d, 12, 0) == Actual(Request, c1, d, 12, 4) == Actual(Request, c2, d, 12, 8);
    assert d[8 + 4..8 + 4 + 1] == "\0";
    assert ActualField(Request, c2, d, 12, 8) == TakePath(c2, "\0", 8);
  }
}
