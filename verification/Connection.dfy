/** The two sides of a server connection: the context object that the protocols create in place and
    the loop of `data_read_callback`, proved against Selection, and the branch of `handle_events` for
    a writable connection, proved against Lanes. */
module Connection {
  import opened Bytes
  import opened Protocol
  import opened Buffers
  import opened Http
  import opened Simple
  import opened Selection
  import HS = HttpSpec
  import SS = SimpleSpec
  import BufferSpec
  import Lanes
  import ServerSpec

  datatype CtxRef = Null | HttpRef(http: HttpContext) | SimpleRef(simple: SimpleContext)

  class TcpConnection {
    const rbuf: Buffer
    const wbuf: Buffer
    var protoIdx: nat
    var ctx: CtxRef

    function CtxObjects(): set<object>
      reads this
    {
      match ctx
      case Null => {}
      case HttpRef(h) => {h}
      case SimpleRef(c) => {c}
    }

    function Any(): AnyCtx
      reads this, CtxObjects()
    {
      match ctx
      case Null => NullCtx
      case HttpRef(h) => HttpCtx(h.Ctx())
      case SimpleRef(c) => SimpleCtx(c.Ctx())
    }

    constructor (size: nat)
      ensures rbuf.Valid() && rbuf.rindex == 0 && rbuf.windex == 0 && protoIdx == 0 && ctx == Null
      ensures wbuf.Valid() && wbuf.rindex == 0 && wbuf.windex == 0 && wbuf != rbuf
    {
      rbuf := new Buffer(size);
      wbuf := new Buffer(size);
      protoIdx, ctx := 0, Null;
    }

    /** The readable bytes start with one of the methods tried. */
    method StartsWithMethod() returns (found: bool)
      requires rbuf.Valid() && rbuf.windex - rbuf.rindex >= HTTP_METHOD_MAX_LEN
      ensures found <==> HS.MatchMethod(rbuf.data[rbuf.rindex..rbuf.windex], 0) != -1
    {
      hide HS.MatchMethod;
      var s := rbuf.data[rbuf.rindex..rbuf.windex];
      var i := 0;
      while i < |HS.METHODS|
        invariant i <= |HS.METHODS|
        invariant HS.MatchMethod(s, 0) == HS.MatchMethod(s, i)
      {
        MatchStep(s, i);
        if HS.METHODS[i] <= s {
          return true;
        }
        i := i + 1;
      }
      return false;
    }

    /** `HTTPProtocol::parse_request` */
    method HttpParse() returns (status: Status)
      requires rbuf.Valid()
      modifies this`ctx, rbuf`rindex, CtxObjects()
      ensures Parsed(status, Any(), rbuf.rindex) ==
              Selection.HttpParse(old(Any()), old(rbuf.data), old(rbuf.windex), old(rbuf.rindex))
      ensures fresh(CtxObjects() - old(CtxObjects()))
    {
      hide HS.ParseMsg;
      if ctx.Null? {
        if rbuf.windex - rbuf.rindex < HTTP_METHOD_MAX_LEN {
          return NoEnoughData;
        }
        var found := StartsWithMethod();
        if !found {
          return TryAnotherProtocol;
        }
        var h := new HttpContext();
        ctx := HttpRef(h);
      }
      if ctx.SimpleRef? {
        return Error;
      }
      status := ctx.http.ParseMsg(HS.Request, rbuf);
    }

    /** `SimpleProtocol::parse_request` */
    method SimpleParse() returns (status: Status)
      requires rbuf.Valid()
      modifies this`ctx, rbuf`rindex, CtxObjects()
      ensures Parsed(status, Any(), rbuf.rindex) ==
              Selection.SimpleParse(old(Any()), old(rbuf.data), old(rbuf.windex), old(rbuf.rindex))
      ensures fresh(CtxObjects() - old(CtxObjects()))
    {
      hide SS.Actual;
      if ctx.Null? {
        if rbuf.windex - rbuf.rindex < 4 {
          return NoEnoughData;
        }
        if rbuf.PeekInt32() != SS.MAGIC_NUM {
          return TryAnotherProtocol;
        }
        var c := new SimpleContext();
        ctx := SimpleRef(c);
      }
      if ctx.HttpRef? {
        return Error;
      }
      status := ctx.simple.ParseMsg(SS.Request, rbuf);
    }

    /** A writable connection: `write_fd`, and behind the completion test the part of
        `write_complete_callback` that drops the context and clears both buffers.  What is left of the
        extra lane then waits to be replaced by the next response. */
    method WriteEvents(w1: Lanes.WriteResult, w2: Lanes.WriteResult) returns (drained: bool, aborted: bool)
      requires wbuf.Valid() && rbuf != wbuf && Lanes.Offered(wbuf.Value(), w1, w2)
      modifies this`ctx, wbuf, rbuf
      ensures var sent := ServerSpec.Output(old(wbuf.Value()), w1, w2).Sent();
              drained == sent.Complete? && aborted == sent.Fatal?
      ensures var w := Lanes.WriteFd(old(wbuf.Value()), w1, w2).buffer;
              wbuf.Value() == if drained then BufferSpec.Clear(w) else w
      ensures rbuf.Value() == if drained then BufferSpec.Clear(old(rbuf.Value())) else old(rbuf.Value())
      ensures ctx == if drained then Null else old(ctx)
    {
      var _, dead := wbuf.WriteFd(w1, w2);
      drained, aborted := !dead && wbuf.rindex == wbuf.windex, dead;
      if drained {
        ctx := Null;
        rbuf.Clear();
        wbuf.Clear();
      }
    }

    /** The loop of `data_read_callback`: it is the specification's loop, and the index never falls. */
    method DataRead(protos: seq<Proto>) returns (status: Status)
      requires rbuf.Valid() && Belongs(protos, protoIdx, Any())
      modifies this, rbuf`rindex, CtxObjects()
      ensures Reader(status, protoIdx, Any(), rbuf.rindex) ==
              ReadLoop(protos, old(protoIdx), old(Any()), old(rbuf.data), old(rbuf.windex), old(rbuf.rindex))
      ensures protoIdx >= old(protoIdx) && Belongs(protos, protoIdx, Any())
      ensures old(!ctx.Null?) ==> protoIdx == old(protoIdx) && !ctx.Null?
    {
      LoopKeepsBelonging(protos, protoIdx, Any(), rbuf.data, rbuf.windex, rbuf.rindex);
      hide ParseWith;
      status := TryAnotherProtocol;
      while protoIdx < |protos|
        invariant rbuf.Valid() && rbuf.rindex == old(rbuf.rindex) && ctx == old(ctx) && Any() == old(Any())
        invariant status == TryAnotherProtocol && protoIdx >= old(protoIdx)
        invariant ReadLoop(protos, protoIdx, Any(), rbuf.data, rbuf.windex, rbuf.rindex) ==
                  ReadLoop(protos, old(protoIdx), old(Any()), rbuf.data, rbuf.windex, old(rbuf.rindex))
        decreases |protos| - protoIdx
      {
        ghost var before, pos := Any(), rbuf.rindex;
        PassesOn(protos[protoIdx], before, rbuf.data, rbuf.windex, pos);
        if protos[protoIdx].HttpProtocol? {
          status := HttpParse();
        } else {
          status := SimpleParse();
        }
        assert Parsed(status, Any(), rbuf.rindex) ==
               ParseWith(protos[protoIdx], before, rbuf.data, rbuf.windex, pos);
        if !status.TryAnotherProtocol? {
          return;
        }
        protoIdx := protoIdx + 1;
      }
    }
  }
}
