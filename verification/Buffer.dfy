/** `class Buffer`, proved against BufferSpec. */
module Buffers {
  import opened Bytes
  import B = Bytes
  import opened BufferSpec
  import BigEndian
  import Lanes

  /** The result of one `::read`: end of file is the empty chunk; `ReadFatal` is any error but
      would-block, on which the process aborts. */
  datatype ReadResult = Got(chunk: Bytes) | ReadWouldBlock | ReadFatal

  class Buffer {
    var data: Bytes
    var rindex: nat
    var windex: nat
    var extraData: Bytes
    var extraIndex: nat

    function Value(): Storage
      reads this
    {
      Storage(data, rindex, windex, extraData, extraIndex)
    }

    ghost predicate Valid()
      reads this
    {
      Value().Valid()
    }

    ghost function Written(): Bytes
      requires Valid()
      reads this
    {
      Value().Written()
    }

    constructor (size: nat)
      ensures Valid()
      ensures Value() == Storage(seq(size, i => '\0'), 0, 0, [], 0)
    {
      data := seq(size, i => '\0');
      rindex, windex, extraData, extraIndex := 0, 0, [], 0;
    }

    /** `*(begin() + i)`, for a readable byte only. */
    function At(i: nat): char
      requires rindex + i < windex <= |data|
      reads this
    {
      data[rindex + i]
    }

    /** `find_crlf`: the offset of the first CRLF among the first `n` readable bytes, or -1. */
    function FindCrlf(n: nat): (r: int)
      requires Valid() && rindex + n <= windex
      reads this
      ensures r == -1 || 0 <= r <= n - 2
      ensures r == -1 ==> forall i :: rindex <= i && i + 2 <= rindex + n ==> !CrlfAt(Written(), i)
      ensures r != -1 ==> CrlfAt(Written(), rindex + r)
      ensures r != -1 ==> forall i :: rindex <= i < rindex + r ==> !CrlfAt(Written(), i)
    {
      var e := B.FindCrlf(data[..windex], rindex, rindex + n);
      if e == -1 then -1 else e - rindex
    }

    /** `peek_uint32` */
    function PeekUint32(): nat
      requires rindex + 4 <= |data|
      reads this
    {
      BigEndian.Decode(data[rindex..rindex + 4])
    }

    /** `peek_int32` */
    function PeekInt32(): int
      requires rindex + 4 <= |data|
      reads this
    {
      BigEndian.DecodeInt(data[rindex..rindex + 4])
    }

    method Retrieve(n: nat)
      modifies this`rindex
      ensures Value() == BufferSpec.Retrieve(old(Value()), n)
    {
      rindex := rindex + n;
    }

    /** `_append` */
    method Append(mem: Bytes)
      requires Valid() && Fits(Value(), mem)
      modifies this`data, this`windex
      ensures Valid() && Value() == BufferSpec.Append(old(Value()), mem)
      ensures Written() == old(Written()) + mem && |data| >= old(|data|)
    {
      ghost var b := Value();
      if AsInt32(|data| - windex) < |mem| {
        data := Doubled(data);
      }
      assert data == RoomFor(b, |mem|);
      data := data[..windex] + mem + data[windex + |mem|..];
      windex := windex + |mem|;
      assert Value() == Put(b, RoomFor(b, |mem|), mem);
      hide Put;
      PutExtends(b, RoomFor(b, |mem|), mem);
    }

    method AppendInt32(n: int)
      requires Valid() && BigEndian.IsInt32(n) && Fits(Value(), BigEndian.EncodeInt(n))
      modifies this`data, this`windex
      ensures Valid() && Value() == BufferSpec.Append(old(Value()), BigEndian.EncodeInt(n))
      ensures Written() == old(Written()) + BigEndian.EncodeInt(n) && |data| >= old(|data|)
    {
      Append(BigEndian.EncodeInt(n));
    }

    method AppendUint32(n: nat)
      requires Valid() && n < TWO_32 && Fits(Value(), BigEndian.Encode(n))
      modifies this`data, this`windex
      ensures Valid() && Value() == BufferSpec.Append(old(Value()), BigEndian.Encode(n))
      ensures Written() == old(Written()) + BigEndian.Encode(n) && |data| >= old(|data|)
    {
      Append(BigEndian.Encode(n));
    }

    /** `append_extra`: replaces the extra lane, the extra index stays. */
    method AppendExtra(mem: Bytes)
      modifies this`extraData
      ensures Value() == old(Value()).(extraData := mem)
    {
      extraData := mem;
    }

    method Clear()
      modifies this`rindex, this`windex, this`extraIndex
      ensures Value() == BufferSpec.Clear(old(Value()))
    {
      rindex, windex, extraIndex := 0, 0, 0;
    }

    /** `read_fd`; `::read` delivers at most what it was offered.  A call that aborts does not return. */
    method ReadFd(r: ReadResult) returns (n: int, aborted: bool)
      requires Valid()
      requires r.Got? ==> windex + |r.chunk| <= |ReadRoom(Value())|
      modifies this`data, this`windex
      ensures Valid() && old(Written()) <= Written() && |data| >= old(|data|)
      ensures r.Got? ==> n == |r.chunk| && Value() == Receive(old(Value()), r.chunk)
      ensures r.Got? ==> Written() == old(Written()) + r.chunk
      ensures !r.Got? ==> Value() == old(Value()).(data := ReadRoom(old(Value()))) && Written() == old(Written())
      ensures r.ReadWouldBlock? ==> n == -1
      ensures aborted <==> r.ReadFatal?
    {
      ghost var b := Value();
      if windex == |data| {
        data := Doubled(data);
      }
      aborted := false;
      match r
      case ReadWouldBlock => n := -1;
      case ReadFatal => n, aborted := -1, true;
      case Got(chunk) =>
        data := data[..windex] + chunk + data[windex + |chunk|..];
        windex := windex + |chunk|;
        n := |chunk|;
        PutExtends(b, ReadRoom(b), chunk);
    }

    /** `write_fd` */
    method WriteFd(w1: Lanes.WriteResult, w2: Lanes.WriteResult) returns (ret: int, aborted: bool)
      requires Valid() && Lanes.Offered(Value(), w1, w2)
      modifies this`rindex, this`extraIndex
      ensures Valid()
      ensures var w := Lanes.WriteFd(old(Value()), w1, w2);
              Value() == w.buffer && aborted == w.Aborted? && (w.Written? ==> ret == w.ret)
    {
      ret, aborted := 0, false;
      if rindex < windex {
        match w1
        case WouldBlock => return -1, false;
        case BrokenPipe => return 0, false;
        case Fatal => return -1, true;
        case Wrote(n) => rindex := rindex + n; ret := ret + n;
      }
      if extraIndex < |extraData| {
        match w2
        case WouldBlock => return -1, false;
        case BrokenPipe => return 0, false;
        case Fatal => return -1, true;
        case Wrote(n) => extraIndex := extraIndex + n; ret := ret + n;
      }
    }
  }

  /** `append` of the first of the pieces. */
  method Print(buf: Buffer, mem: Bytes, ghost rest: seq<Bytes>)
    requires buf.Valid() && AppendsFit(buf.Value(), [mem] + rest)
    modifies buf`data, buf`windex
    ensures buf.Valid() && AppendsFit(buf.Value(), rest)
    ensures AppendAll(old(buf.Value()), [mem] + rest) == AppendAll(buf.Value(), rest)
  {
    NextPiece(buf.Value(), mem, rest);
    hide Fits;
    hide BufferSpec.Append;
    hide AppendsFit;
    hide AppendAll;
    buf.Append(mem);
  }

  /** `append` of five pieces in a row. */
  method Print5(buf: Buffer, a: Bytes, b: Bytes, c: Bytes, d: Bytes, e: Bytes, ghost rest: seq<Bytes>)
    requires buf.Valid() && AppendsFit(buf.Value(), [a, b, c, d, e] + rest)
    modifies buf`data, buf`windex
    ensures buf.Valid() && AppendsFit(buf.Value(), rest)
    ensures AppendAll(old(buf.Value()), [a, b, c, d, e] + rest) == AppendAll(buf.Value(), rest)
  {
    hide AppendsFit;
    hide AppendAll;
    FivePieces(a, b, c, d, e, rest);
    ghost var r4 := [e] + rest;
    ghost var r3 := [d] + r4;
    ghost var r2 := [c] + r3;
    Print(buf, a, [b] + r2);
    Print(buf, b, r2);
    Print(buf, c, r3);
    Print(buf, d, r4);
    Print(buf, e, rest);
  }

  lemma FivePieces(a: Bytes, b: Bytes, c: Bytes, d: Bytes, e: Bytes, rest: seq<Bytes>)
    ensures [a, b, c, d, e] + rest == [a] + ([b] + ([c] + ([d] + ([e] + rest))))
  {
  }
}
