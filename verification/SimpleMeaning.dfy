/** What the messages of the simple protocol mean, in closed form: which bytes are accepted, rejected
    or waited for by the reference, read off fixed offsets and lengths without any stages. */
module SimpleMeaning {
  import opened Bytes
  import opened Protocol
  import opened BigEndian
  import opened SimpleSpec
  import R = SimpleRoundTrip

  /** The first word is there and is the magic number. */
  predicate Magic(s: Bytes) { |s| >= 4 && IntAt(s, 0) == 0x1995_1028 }

  /** The word at `pos` is there and lies in `0..last`. */
  predicate Code(s: Bytes, pos: nat, last: nat) { |s| >= pos + 4 && 0 <= IntAt(s, pos) <= last }

  /** The length word at `pos` and as many bytes as it says are there. */
  predicate Field(s: Bytes, pos: nat) { |s| >= pos + 4 && |s| >= pos + 4 + LenAt(s, pos) }

  /** The bytes of a field. */
  function FieldOf(s: Bytes, pos: nat): Bytes
    requires Field(s, pos)
  {
    s[pos + 4..pos + 4 + LenAt(s, pos)]
  }

  function After(s: Bytes, pos: nat): nat
    requires Field(s, pos)
  {
    pos + 4 + LenAt(s, pos)
  }

  // ---------------------------------------------------------------- requests

  /** Magic number, connection type, path with a slash, payload. */
  predicate IsRequest(s: Bytes)
  {
    Magic(s) && Code(s, 4, 2) && Field(s, 8) && '/' in FieldOf(s, 8) && Field(s, After(s, 8))
  }

  /** The first part that is there and wrong. */
  predicate BadRequest(s: Bytes)
  {
    || (|s| >= 4 && !Magic(s))
    || (|s| >= 8 && Magic(s) && !Code(s, 4, 2))
    || (Magic(s) && Code(s, 4, 2) && Field(s, 8) && '/' !in FieldOf(s, 8))
  }

  /** What the context of an accepted request says. */
  predicate SaysRequest(s: Bytes, c: Ctx)
    requires IsRequest(s)
  {
    && ConnCode(c.connType) == IntAt(s, 4)
    && FieldOf(s, 8) == c.service + "/" + c.methodName && '/' !in c.service
    && c.payloadView == View(After(s, 8) + 4, After(s, After(s, 8)))
  }

  /** Exactly which bytes are accepted, rejected and waited for, and what is stored. */
  lemma RequestExactly(s: Bytes)
    ensures var r := Intended(Request, NEW_CTX, s, 0);
            && (r.status.Success? <==> IsRequest(s))
            && (r.status.Error? <==> BadRequest(s))
            && (r.status.NoEnoughData? <==> !IsRequest(s) && !BadRequest(s))
            && (IsRequest(s) ==> SaysRequest(s, r.ctx) && r.pos == After(s, After(s, 8)))
  {
    hide IntAt;
    hide LenAt;
    hide TakePath;
    var c1 := NEW_CTX.(stage := 1);
    if Magic(s) {
      assert Intended(Request, NEW_CTX, s, 0) == Intended(Request, c1, s, 4);
      if Code(s, 4, 2) {
        var c2 := c1.(stage := 2, connType := ConnOf(IntAt(s, 4)));
        assert Intended(Request, c1, s, 4) == Intended(Request, c2, s, 8);
        PathExactly(c2, s);
      }
    }
  }

  lemma PathExactly(c: Ctx, s: Bytes)
    requires c.stage == 2 && |s| >= 8
    ensures var r := Intended(Request, c, s, 8);
            if !Field(s, 8) then r == Parse(NoEnoughData, c, 8)
            else if '/' !in FieldOf(s, 8) then r.status.Error?
            else
              && r.ctx.connType == c.connType
              && FieldOf(s, 8) == r.ctx.service + "/" + r.ctx.methodName && '/' !in r.ctx.service
              && (if Field(s, After(s, 8))
                  then r.status.Success? && r.pos == After(s, After(s, 8))
                       && r.ctx.payloadView == View(After(s, 8) + 4, After(s, After(s, 8)))
                  else r.status.NoEnoughData?)
  {
    hide LenAt;
    var r := FieldStage(Request, c, s, 8);
    if Field(s, 8) {
      PathSplits(c, FieldOf(s, 8));
      hide TakePath;
      assert Stage(Request, c, s, 8) == TakePath(c, FieldOf(s, 8), 8) == r;
      if '/' in FieldOf(s, 8) {
        assert Intended(Request, c, s, 8) == Intended(Request, r.ctx, s, After(s, 8));
        PayloadExactly(Request, r.ctx, s, After(s, 8));
      }
    }
  }

  lemma PathSplits(c: Ctx, path: Bytes)
    ensures var r := TakePath(c, path, 8);
            && (r.status.PartSuccess? <==> '/' in path)
            && ('/' in path ==>
                  && path == r.ctx.service + "/" + r.ctx.methodName && '/' !in r.ctx.service
                  && r.pos == 12 + |path| && r.ctx.stage == 3 && r.ctx.connType == c.connType)
  {
    var i := IndexOf(path, '/', 0, |path|);
    if i != -1 {
      assert path == path[..i] + [path[i]] + path[i + 1..];
    }
  }

  /** The last field of both messages. */
  lemma PayloadExactly(k: Kind, c: Ctx, s: Bytes, pos: nat)
    requires c.stage == Last(k) - 1 && pos <= |s|
    ensures var r := Intended(k, c, s, pos);
            if Field(s, pos)
            then r == Parse(Success, c.(stage := Last(k), payloadView := View(pos + 4, After(s, pos))), After(s, pos))
            else r == Parse(NoEnoughData, c, pos)
  {
    hide LenAt;
    var r := FieldStage(k, c, s, pos);
    assert Stage(k, c, s, pos) == r;
    if Field(s, pos) {
      assert Intended(k, r.ctx, s, r.pos) == Parse(Success, r.ctx, r.pos);
    }
  }

  // ---------------------------------------------------------------- responses

  /** Magic number, connection type, status, payload. */
  predicate IsResponse(s: Bytes) { Magic(s) && Code(s, 4, 2) && Code(s, 8, 1) && Field(s, 12) }

  /** The parser looks at the connection type only when the status word is there as well. */
  predicate BadResponse(s: Bytes)
  {
    || (|s| >= 4 && !Magic(s))
    || (|s| >= 12 && Magic(s) && !(Code(s, 4, 2) && Code(s, 8, 1)))
  }

  lemma ResponseExactly(s: Bytes)
    ensures var r := Intended(Response, NEW_CTX, s, 0);
            && (r.status.Success? <==> IsResponse(s))
            && (r.status.Error? <==> BadResponse(s))
            && (r.status.NoEnoughData? <==> !IsResponse(s) && !BadResponse(s))
            && (IsResponse(s) ==>
                  && ConnCode(r.ctx.connType) == IntAt(s, 4) && StatusCode(r.ctx.rpcStatus) == IntAt(s, 8)
                  && r.ctx.payloadView == View(16, After(s, 12)) && r.pos == After(s, 12))
  {
    hide IntAt;
    hide LenAt;
    var c1 := NEW_CTX.(stage := 1);
    if Magic(s) {
      assert Intended(Response, NEW_CTX, s, 0) == Intended(Response, c1, s, 4);
      if Code(s, 4, 2) && Code(s, 8, 1) {
        var c2 := c1.(stage := 2, connType := ConnOf(IntAt(s, 4)), rpcStatus := StatusOf(IntAt(s, 8)));
        assert Intended(Response, c1, s, 4) == Intended(Response, c2, s, 12);
        PayloadExactly(Response, c2, s, 12);
      }
    }
  }

  // ---------------------------------------------------------------- numbers on the wire

  /** The codes of protocols/protocol.proto. */
  lemma Codes()
    ensures ConnCode(Short) == 0 && ConnCode(Single) == 1 && ConnCode(Pool) == 2
    ensures StatusCode(RpcOk) == 0 && StatusCode(InvalidPath) == 1
  {
  }

  /** The high byte comes first: words are ordered as their first bytes are, where these differ. */
  lemma HighByteFirst(m: nat, n: nat)
    requires m < TWO_32 && n < TWO_32
    ensures Encode(m)[0] as int < Encode(n)[0] as int ==> m < n
  {
  }

  /** A whole packed request, byte by byte. */
  lemma PackedBytes()
    ensures R.PackRequest("S", "m", Pool, "hi") ==
            [25 as char, 149 as char, 16 as char, 40 as char,
             0 as char, 0 as char, 0 as char, 2 as char,
             0 as char, 0 as char, 0 as char, 3 as char, 'S', '/', 'm',
             0 as char, 0 as char, 0 as char, 2 as char, 'h', 'i']
  {
  }
}
