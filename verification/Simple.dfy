/** `class SimpleContext`, proved against SimpleSpec and the packed messages of SimpleRoundTrip. */
module Simple {
  import opened Bytes
  import opened Protocol
  import opened BigEndian
  import opened SimpleSpec
  import opened BufferSpec
  import opened Buffers
  import R = SimpleRoundTrip

  class SimpleContext {
    var stage: nat
    var connType: ConnType
    var rpcStatus: RpcStatus
    var service: Bytes
    var methodName: Bytes
    var payloadView: View
    var payload: Bytes

    function Ctx(): SimpleSpec.Ctx
      reads this
    {
      SimpleSpec.Ctx(stage, connType, rpcStatus, service, methodName, payloadView)
    }

    constructor ()
      ensures Ctx() == NEW_CTX && payload == []
    {
      stage, connType, rpcStatus, payloadView := 0, Short, RpcOk, NO_VIEW;
      service, methodName, payload := [], [], [];
    }

    /** The magic number and the words behind it: stages 0 and 1. */
    method ParseWords(kind: Kind, buf: Buffer) returns (status: Status)
      requires buf.Valid() && stage < 2
      modifies this, buf`rindex
      ensures buf.Valid()
      ensures Parse(status, Ctx(), buf.rindex) == Stage(kind, old(Ctx()), old(buf.Written()), old(buf.rindex))
    {
      hide MagicStage;
      hide ConnStage;
      if stage == 0 {
        status := ParseMagic(buf);
      } else {
        status := ParseConn(kind, buf);
      }
    }

    method ParseMagic(buf: Buffer) returns (status: Status)
      requires buf.Valid() && stage == 0
      modifies this, buf`rindex
      ensures buf.Valid()
      ensures Parse(status, Ctx(), buf.rindex) == MagicStage(old(Ctx()), old(buf.Written()), old(buf.rindex))
    {
      hide IntAt;
      if buf.windex - buf.rindex < 4 {
        return NoEnoughData;
      }
      WordIn(buf);
      if buf.PeekInt32() != MAGIC_NUM {
        return Error;
      }
      buf.Retrieve(4);
      stage := 1;
      return PartSuccess;
    }

    /** The connection type, and in a response the status. */
    method ParseConn(kind: Kind, buf: Buffer) returns (status: Status)
      requires buf.Valid() && stage == 1
      modifies this, buf`rindex
      ensures buf.Valid()
      ensures Parse(status, Ctx(), buf.rindex) == ConnStage(kind, old(Ctx()), old(buf.Written()), old(buf.rindex))
    {
      hide IntAt;
      if buf.windex - buf.rindex < (if kind.Request? then 4 else 8) {
        return NoEnoughData;
      }
      WordIn(buf);
      var n := buf.PeekInt32();
      if !(0 <= n <= 2) {
        return Error;
      }
      buf.Retrieve(4);
      connType := ConnOf(n);
      if kind.Response? {
        WordIn(buf);
        var m := buf.PeekInt32();
        if !(0 <= m <= 1) {
          return Error;
        }
        buf.Retrieve(4);
        rpcStatus := StatusOf(m);
      }
      stage := 2;
      return PartSuccess;
    }

    /** A length-prefixed field: the path, or the payload. */
    method ParseField(kind: Kind, buf: Buffer) returns (status: Status)
      requires buf.windex <= |buf.data| && 2 <= stage < Last(kind)
      modifies this, buf`rindex
      ensures Parse(status, Ctx(), buf.rindex) ==
              ActualField(kind, old(Ctx()), buf.data, buf.windex, old(buf.rindex))
    {
      hide Decode;
      hide TakePath;
      if Readable(buf.windex, buf.rindex) < 4 {
        return NoEnoughData;
      }
      if buf.rindex + 4 > |buf.data| {
        return Wild;
      }
      var len := buf.PeekUint32();
      if Readable(buf.windex, buf.rindex) < len {
        return NoEnoughData;
      }
      if kind.Request? && stage == 2 {
        if buf.rindex + 4 + len > |buf.data| {
          return Wild;
        }
        status := ParsePath(buf, len);
      } else {
        buf.Retrieve(4);
        payloadView := View(buf.rindex, buf.rindex + len);
        stage := Last(kind);
        buf.Retrieve(len);
        status := PartSuccess;
      }
    }

    /** The path of length `len` behind its length word. */
    method ParsePath(buf: Buffer, len: nat) returns (status: Status)
      requires buf.rindex + 4 + len <= |buf.data|
      modifies this, buf`rindex
      ensures Parse(status, Ctx(), buf.rindex) ==
              TakePath(old(Ctx()), buf.data[old(buf.rindex) + 4..old(buf.rindex) + 4 + len], old(buf.rindex))
    {
      hide IndexOf;
      buf.Retrieve(4);
      var path := buf.data[buf.rindex..buf.rindex + len];
      var tmp := IndexOf(path, '/', 0, len);
      if tmp == -1 {
        return Error;
      }
      service := path[..tmp];
      methodName := path[tmp + 1..];
      buf.Retrieve(len);
      stage := 3;
      return PartSuccess;
    }

    /** `parse_request` and `parse_response`, for every storage and every state of the context. */
    method ParseMsg(kind: Kind, buf: Buffer) returns (status: Status)
      requires buf.windex <= |buf.data| && buf.extraIndex <= |buf.extraData|
      requires stage < 2 ==> buf.rindex <= buf.windex
      modifies this, buf`rindex
      ensures Parse(status, Ctx(), buf.rindex) ==
              Actual(kind, old(Ctx()), old(buf.data), old(buf.windex), old(buf.rindex))
    {
      hide ActualField;
      hide Stage;
      while stage < Last(kind)
        invariant stage < 2 ==> buf.rindex <= buf.windex
        invariant Actual(kind, Ctx(), buf.data, buf.windex, buf.rindex) ==
                  Actual(kind, old(Ctx()), buf.data, buf.windex, old(buf.rindex))
        decreases Last(kind) - stage
      {
        ghost var c, pos := Ctx(), buf.rindex;
        if stage < 2 {
          status := ParseWords(kind, buf);
        } else {
          status := ParseField(kind, buf);
          FieldAdvances(kind, c, buf.data, buf.windex, pos);
        }
        if !status.PartSuccess? {
          return;
        }
      }
      return Success;
    }

    /** `pack_request`, whenever the pieces pass `append` one after the other: the words and the path
        are appended to the data lane, and the payload is the extra lane. */
    method PackRequest(buf: Buffer)
      requires buf.Valid() && |R.PathOf(service, methodName)| < TWO_32 && |payload| < TWO_32
      requires AppendsFit(buf.Value(), RequestPieces(service, methodName, connType, |payload|))
      modifies buf`data, buf`windex, buf`extraData
      ensures buf.Value() ==
              Packed(old(buf.Value()), RequestPieces(service, methodName, connType, |payload|), payload)
      ensures Grown(old(buf.Value()), buf.Value(), R.RequestHead(service, methodName, connType, |payload|), payload)
    {
      PackedGrows(buf.Value(), RequestPieces(service, methodName, connType, |payload|), payload);
      RequestPiecesAreHead(service, methodName, connType, |payload|);
      hide Grown;
      hide R.PathOf;
      hide BufferSpec.Append;
      hide EncodeInt;
      hide Encode;
      hide AppendsFit;
      hide AppendAll;
      hide Fits;
      hide WordPieces;
      hide PathPieces;
      FirstWords(buf, PathPieces(service, methodName, [Encode(|payload|)]));
      PrintPath(buf, [Encode(|payload|)]);
      LastWord(buf);
      buf.AppendExtra(payload);
    }

    /** The magic number and the connection type, as the first pieces. */
    method FirstWords(buf: Buffer, ghost rest: seq<Bytes>)
      requires buf.Valid()
      requires AppendsFit(buf.Value(), WordPieces(connType, rest))
      modifies buf`data, buf`windex
      ensures buf.Valid() && AppendsFit(buf.Value(), rest)
      ensures AppendAll(old(buf.Value()), WordPieces(connType, rest)) == AppendAll(buf.Value(), rest)
    {
      hide EncodeInt;
      hide AppendsFit;
      hide AppendAll;
      hide Fits;
      hide BufferSpec.Append;
      NextPiece(buf.Value(), EncodeInt(MAGIC_NUM), [EncodeInt(ConnCode(connType))] + rest);
      buf.AppendInt32(MAGIC_NUM);
      NextPiece(buf.Value(), EncodeInt(ConnCode(connType)), rest);
      buf.AppendInt32(ConnCode(connType));
    }

    /** The length of the path, and the path in three appends. */
    method PrintPath(buf: Buffer, ghost rest: seq<Bytes>)
      requires buf.Valid() && AppendsFit(buf.Value(), PathPieces(service, methodName, rest))
      modifies buf`data, buf`windex
      ensures buf.Valid() && AppendsFit(buf.Value(), rest)
      ensures AppendAll(old(buf.Value()), PathPieces(service, methodName, rest)) == AppendAll(buf.Value(), rest)
    {
      hide Encode;
      hide AppendsFit;
      hide AppendAll;
      hide Fits;
      hide BufferSpec.Append;
      var n := (|service| + 1 + |methodName|) % TWO_32;
      ghost var r2 := [methodName] + rest;
      ghost var r1 := ["/"] + r2;
      NextPiece(buf.Value(), Encode(n), [service] + r1);
      buf.AppendUint32(n);
      Print(buf, service, r1);
      Print(buf, "/", r2);
      Print(buf, methodName, rest);
    }

    /** The length of the payload, as the last piece. */
    method LastWord(buf: Buffer)
      requires buf.Valid() && |payload| < TWO_32 && AppendsFit(buf.Value(), [Encode(|payload|)])
      modifies buf`data, buf`windex
      ensures buf.Value() == AppendAll(old(buf.Value()), [Encode(|payload|)])
    {
      hide Encode;
      assert [Encode(|payload|)] == [Encode(|payload|)] + [];
      NextPiece(buf.Value(), Encode(|payload|), []);
      buf.AppendUint32(|payload|);
    }

    /** `pack_response` */
    method PackResponse(buf: Buffer)
      requires buf.Valid() && |payload| < TWO_32
      requires AppendsFit(buf.Value(), ResponsePieces(connType, rpcStatus, |payload|))
      modifies buf`data, buf`windex, buf`extraData
      ensures buf.Value() == Packed(old(buf.Value()), ResponsePieces(connType, rpcStatus, |payload|), payload)
      ensures Grown(old(buf.Value()), buf.Value(), R.ResponseHead(connType, rpcStatus, |payload|), payload)
    {
      PackedGrows(buf.Value(), ResponsePieces(connType, rpcStatus, |payload|), payload);
      ResponsePiecesAreHead(connType, rpcStatus, |payload|);
      hide Grown;
      hide EncodeInt;
      hide Encode;
      hide AppendsFit;
      hide AppendAll;
      hide Fits;
      hide BufferSpec.Append;
      hide WordPieces;
      FirstWords(buf, [EncodeInt(StatusCode(rpcStatus))] + [Encode(|payload|)]);
      NextPiece(buf.Value(), EncodeInt(StatusCode(rpcStatus)), [Encode(|payload|)]);
      buf.AppendInt32(StatusCode(rpcStatus));
      LastWord(buf);
      buf.AppendExtra(payload);
    }
  }

  /** What the packers append, in order. */
  function RequestPieces(service: Bytes, methodName: Bytes, t: ConnType, n: nat): seq<Bytes>
    requires n < TWO_32
  {
    WordPieces(t, PathPieces(service, methodName, [Encode(n)]))
  }

  function ResponsePieces(t: ConnType, status: RpcStatus, n: nat): seq<Bytes>
    requires n < TWO_32
  {
    WordPieces(t, [EncodeInt(StatusCode(status))] + [Encode(n)])
  }

  function WordPieces(t: ConnType, rest: seq<Bytes>): seq<Bytes>
  {
    [EncodeInt(MAGIC_NUM)] + ([EncodeInt(ConnCode(t))] + rest)
  }

  function PathPieces(service: Bytes, methodName: Bytes, rest: seq<Bytes>): seq<Bytes>
  {
    [Encode((|service| + 1 + |methodName|) % TWO_32)] + ([service] + (["/"] + ([methodName] + rest)))
  }

  /** A buffer of 4 bytes or more that is no shorter than the names always takes the pieces. */
  lemma PiecesFit(b: Storage, service: Bytes, methodName: Bytes, t: ConnType, status: RpcStatus, n: nat)
    requires b.Valid() && |b.data| >= 4 && n < TWO_32
    requires |service| <= |b.data| && |methodName| <= |b.data|
    requires |service| <= INT_MAX && |methodName| <= INT_MAX
    ensures AppendsFit(b, RequestPieces(service, methodName, t, n)) && AppendsFit(b, ResponsePieces(t, status, n))
  {
    hide EncodeInt;
    hide Encode;
    hide AppendsFit;
    ShortAppendsFit(b, RequestPieces(service, methodName, t, n));
    ShortAppendsFit(b, ResponsePieces(t, status, n));
  }

  /** A word of the buffer is the word of the bytes written. */
  lemma WordIn(buf: Buffer)
    requires buf.Valid() && buf.rindex + 4 <= buf.windex
    ensures buf.PeekInt32() == IntAt(buf.Written(), buf.rindex)
  {
    hide DecodeInt;
    SliceOfPrefix(buf.data, buf.windex, buf.rindex, buf.rindex + 4);
  }

  lemma FieldAdvances(k: Kind, c: SimpleSpec.Ctx, d: Bytes, w: nat, pos: nat)
    requires w <= |d| && 2 <= c.stage < Last(k)
    ensures var r := ActualField(k, c, d, w, pos);
            r.status.PartSuccess? ==> c.stage < r.ctx.stage <= Last(k)
  {
  }

  /** The pieces make the head. */
  lemma RequestPiecesAreHead(service: Bytes, methodName: Bytes, t: ConnType, n: nat)
    requires |R.PathOf(service, methodName)| < TWO_32 && n < TWO_32
    ensures Concat(RequestPieces(service, methodName, t, n)) == R.RequestHead(service, methodName, t, n)
  {
    assert |R.PathOf(service, methodName)| == |service| + 1 + |methodName|;
    ConcatRequest(service, methodName, t, n);
    hide R.PathOf;
    hide EncodeInt;
    hide Encode;
    hide Concat;
    hide RequestPieces;
    Regroup(EncodeInt(MAGIC_NUM), EncodeInt(ConnCode(t)), Encode(|service| + 1 + |methodName|), service, methodName,
            Encode(n));
  }

  lemma ConcatRequest(service: Bytes, methodName: Bytes, t: ConnType, n: nat)
    requires |service| + 1 + |methodName| < TWO_32 && n < TWO_32
    ensures Concat(RequestPieces(service, methodName, t, n)) ==
            EncodeInt(MAGIC_NUM) + (EncodeInt(ConnCode(t)) + (Encode(|service| + 1 + |methodName|)
            + (service + ("/" + (methodName + Encode(n))))))
  {
    hide EncodeInt;
    hide Encode;
    hide Concat;
    hide PathPieces;
    hide WordPieces;
    ConcatWords(t, PathPieces(service, methodName, [Encode(n)]));
    ConcatPath(service, methodName, [Encode(n)]);
    ConcatLast(Encode(n));
  }

  lemma ConcatWords(t: ConnType, rest: seq<Bytes>)
    ensures Concat(WordPieces(t, rest)) == EncodeInt(MAGIC_NUM) + (EncodeInt(ConnCode(t)) + Concat(rest))
  {
    hide EncodeInt;
    ConcatOne(EncodeInt(MAGIC_NUM), [EncodeInt(ConnCode(t))] + rest);
    ConcatOne(EncodeInt(ConnCode(t)), rest);
  }

  lemma ConcatPath(service: Bytes, methodName: Bytes, rest: seq<Bytes>)
    ensures Concat(PathPieces(service, methodName, rest)) ==
            Encode((|service| + 1 + |methodName|) % TWO_32) + (service + ("/" + (methodName + Concat(rest))))
  {
    hide Encode;
    var r2 := [methodName] + rest;
    var r1 := ["/"] + r2;
    ConcatOne(Encode((|service| + 1 + |methodName|) % TWO_32), [service] + r1);
    ConcatOne(service, r1);
    ConcatOne("/", r2);
    ConcatOne(methodName, rest);
  }

  lemma ConcatLast(g: Bytes)
    ensures Concat([g]) == g
  {
    assert [g] == [g] + [] && g + [] == g;
    ConcatOne(g, []);
  }

  lemma Regroup(a: Bytes, b: Bytes, c: Bytes, service: Bytes, methodName: Bytes, d: Bytes)
    ensures a + (b + (c + (service + ("/" + (methodName + d))))) == a + b + c + R.PathOf(service, methodName) + d
  {
    var p := R.PathOf(service, methodName);
    assert service + ("/" + (methodName + d)) == p + d;
    hide R.PathOf;
    assert a + (b + (c + (p + d))) == a + b + c + p + d;
  }

  lemma ResponsePiecesAreHead(t: ConnType, status: RpcStatus, n: nat)
    requires n < TWO_32
    ensures Concat(ResponsePieces(t, status, n)) == R.ResponseHead(t, status, n)
  {
    var a, b, c, d := EncodeInt(MAGIC_NUM), EncodeInt(ConnCode(t)), EncodeInt(StatusCode(status)), Encode(n);
    hide EncodeInt;
    hide Encode;
    ConcatWords(t, [c] + [d]);
    ConcatOne(c, [d]);
    ConcatLast(d);
    assert a + (b + (c + d)) == a + b + c + d;
  }
}
