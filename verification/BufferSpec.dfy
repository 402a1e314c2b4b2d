/** What `Buffer` (net/buffer.h, net/buffer.cpp) computes, on values, and what follows for runs. */
module BufferSpec {
  import opened Bytes
  import opened Protocol

  /** The fields of `Buffer`; `data` is the whole storage, stale bytes behind `windex` included. */
  datatype Storage = Storage(data: Bytes, rindex: nat, windex: nat, extraData: Bytes, extraIndex: nat) {
    predicate Valid() { rindex <= windex <= |data| && extraIndex <= |extraData| }

    /** The bytes between the start of the storage and the write index. */
    function Written(): Bytes
      requires Valid()
    {
      data[..windex]
    }

    /** The readable bytes. */
    function Contents(): Bytes
      requires Valid()
    {
      data[rindex..windex]
    }
  }

  /** `_data.resize(_data.size() * 2)` */
  function Doubled(data: Bytes): Bytes { data + seq(|data|, i => '\0') }

  /** The storage that `_append` copies `n` bytes into: doubled at most once. */
  function RoomFor(b: Storage, n: nat): Bytes
    requires b.Valid()
  {
    if AsInt32(|b.data| - b.windex) < n then Doubled(b.data) else b.data
  }

  /** The length passes as an `int` and the copy of `_append` stays inside the storage. */
  predicate Fits(b: Storage, mem: Bytes)
    requires b.Valid()
  {
    |mem| <= INT_MAX && b.windex + |mem| <= |RoomFor(b, |mem|)|
  }

  /** Bytes copied to the write index of a storage that has become `d`. */
  function Put(b: Storage, d: Bytes, mem: Bytes): (r: Storage)
    requires b.Valid() && b.data <= d && b.windex + |mem| <= |d|
    ensures r.Valid()
  {
    b.(data := d[..b.windex] + mem + d[b.windex + |mem|..], windex := b.windex + |mem|)
  }

  lemma PutExtends(b: Storage, d: Bytes, mem: Bytes)
    requires b.Valid() && b.data <= d && b.windex + |mem| <= |d|
    ensures var r := Put(b, d, mem);
            && r.Written() == b.Written() + mem
            && r.Contents() == b.Contents() + mem
            && |r.data| == |d|
  {
    var r := Put(b, d, mem);
    assert d[..b.windex] == b.Written();
    assert r.Written() == b.Written() + mem;
    assert r.Contents() == r.Written()[b.rindex..];
    assert b.Contents() == b.Written()[b.rindex..];
  }

  function Append(b: Storage, mem: Bytes): (r: Storage)
    requires b.Valid() && Fits(b, mem)
    ensures r.Valid()
  {
    Put(b, RoomFor(b, |mem|), mem)
  }

  /** The storage that `read_fd` offers to `::read`. */
  function ReadRoom(b: Storage): Bytes
    requires b.Valid()
  {
    if b.windex == |b.data| then Doubled(b.data) else b.data
  }

  /** `read_fd` when `::read` delivers `chunk`. */
  function Receive(b: Storage, chunk: Bytes): (r: Storage)
    requires b.Valid() && b.windex + |chunk| <= |ReadRoom(b)|
    ensures r.Valid()
  {
    Put(b, ReadRoom(b), chunk)
  }

  function Retrieve(b: Storage, n: nat): Storage { b.(rindex := b.rindex + n) }

  /** `clear` leaves the storage and the extra data in place. */
  function Clear(b: Storage): Storage { b.(rindex := 0, windex := 0, extraIndex := 0) }

  /** An append no longer than the capacity, of any buffer, is safe: one doubling is then enough. */
  lemma ShortAppendFits(b: Storage, mem: Bytes)
    requires b.Valid() && |mem| <= |b.data| && |mem| <= INT_MAX
    ensures Fits(b, mem)
  {
  }

  /** Exactly when the copy stays inside the storage, for storage and data below 2^31 bytes. */
  lemma FitsExactly(b: Storage, mem: Bytes)
    requires b.Valid() && |b.data| <= INT_MAX && |mem| <= INT_MAX
    ensures Fits(b, mem) <==> b.windex + |mem| <= 2 * |b.data|
  {
  }

  /** An append that there is room for does not grow the storage, and any other doubles it. */
  lemma GrowsOnlyWhenNeeded(b: Storage, mem: Bytes)
    requires b.Valid() && Fits(b, mem) && |b.data| <= INT_MAX
    ensures |Append(b, mem).data| == if b.windex + |mem| <= |b.data| then |b.data| else 2 * |b.data|
  {
  }

  /** What `read_fd` offers: the storage, doubled exactly if it is full, so that there is room behind
      the write index unless the storage is empty. */
  lemma ReadRoomExactly(b: Storage)
    requires b.Valid()
    ensures b.data <= ReadRoom(b) && |ReadRoom(b)| == (if b.windex < |b.data| then |b.data| else 2 * |b.data|)
    ensures b.windex < |ReadRoom(b)| <==> b.data != []
  {
  }

  /** Pieces appended one after the other all stay inside the storage. */
  predicate AppendsFit(b: Storage, pieces: seq<Bytes>)
    requires b.Valid()
    decreases |pieces|
  {
    pieces == [] || (Fits(b, pieces[0]) && AppendsFit(Append(b, pieces[0]), pieces[1..]))
  }

  function AppendAll(b: Storage, pieces: seq<Bytes>): (r: Storage)
    requires b.Valid() && AppendsFit(b, pieces)
    ensures r.Valid()
    decreases |pieces|
  {
    if pieces == [] then b else AppendAll(Append(b, pieces[0]), pieces[1..])
  }

  /** What a packer leaves: the pieces in the data lane, the payload as the extra lane. */
  function Packed(b: Storage, pieces: seq<Bytes>, payload: Bytes): Storage
    requires b.Valid() && AppendsFit(b, pieces)
  {
    AppendAll(b, pieces).(extraData := payload)
  }

  /** The first of the pieces is appended, then the others. */
  lemma NextPiece(b: Storage, mem: Bytes, rest: seq<Bytes>)
    requires b.Valid() && AppendsFit(b, [mem] + rest)
    ensures Fits(b, mem) && AppendsFit(Append(b, mem), rest)
    ensures AppendAll(b, [mem] + rest) == AppendAll(Append(b, mem), rest)
  {
    hide Fits;
    hide Append;
    assert ([mem] + rest)[1..] == rest;
  }

  lemma AppendGrows(b: Storage, mem: Bytes)
    requires b.Valid() && Fits(b, mem)
    ensures var r := Append(b, mem);
            && r.Written() == b.Written() + mem && |r.data| >= |b.data|
            && r == b.(data := r.data, windex := r.windex)
  {
    PutExtends(b, RoomFor(b, |mem|), mem);
  }

  /** The written bytes grow by the pieces in order, and nothing else changes. */
  lemma {:induction false} AppendAllGrows(b: Storage, pieces: seq<Bytes>)
    requires b.Valid() && AppendsFit(b, pieces)
    ensures var r := AppendAll(b, pieces);
            && r.Written() == b.Written() + Concat(pieces) && |r.data| >= |b.data|
            && r == b.(data := r.data, windex := r.windex)
    decreases |pieces|
  {
    hide Fits;
    hide Append;
    hide Storage.Written;
    if pieces == [] {
      assert b.Written() + [] == b.Written();
    } else {
      AppendGrows(b, pieces[0]);
      AppendAllGrows(Append(b, pieces[0]), pieces[1..]);
      assert b.Written() + pieces[0] + Concat(pieces[1..]) == b.Written() + (pieces[0] + Concat(pieces[1..]));
    }
  }

  /** `text` has been appended to the data lane and `payload` is the extra lane; the read index and
      the extra index are as before. */
  predicate Grown(b: Storage, r: Storage, text: Bytes, payload: Bytes)
    requires b.Valid()
  {
    && r == b.(data := r.data, windex := r.windex, extraData := payload)
    && r.windex <= |r.data|
    && r.data[..r.windex] == b.Written() + text
  }

  lemma PackedGrows(b: Storage, pieces: seq<Bytes>, payload: Bytes)
    requires b.Valid() && AppendsFit(b, pieces)
    ensures Grown(b, Packed(b, pieces, payload), Concat(pieces), payload)
  {
    AppendAllGrows(b, pieces);
  }

  ghost predicate ShortPieces(pieces: seq<Bytes>, size: nat)
  {
    forall i :: 0 <= i < |pieces| ==> |pieces[i]| <= size && |pieces[i]| <= INT_MAX
  }

  /** Pieces no longer than the capacity always do, however many they are. */
  lemma {:induction false} ShortAppendsFit(b: Storage, pieces: seq<Bytes>)
    requires b.Valid() && ShortPieces(pieces, |b.data|)
    ensures AppendsFit(b, pieces)
    decreases |pieces|
  {
    if pieces != [] {
      ShortAppendFits(b, pieces[0]);
      AppendGrows(b, pieces[0]);
      hide Append;
      hide Fits;
      ShortAppendsFit(Append(b, pieces[0]), pieces[1..]);
    }
  }

  /** One doubling can be too little: nine bytes for an empty buffer of four. */
  lemma GrowthIsShort()
    ensures var b := Storage("....", 0, 0, [], 0);
            b.Valid() && !Fits(b, "nine byte")
  {
    FitsExactly(Storage("....", 0, 0, [], 0), "nine byte");
  }

  // ---------------------------------------------------------------- runs

  datatype Op = AppendOp(mem: Bytes) | ReceiveOp(chunk: Bytes) | RetrieveOp(n: nat)

  predicate Legal(b: Storage, op: Op)
    requires b.Valid()
  {
    match op
    case AppendOp(mem) => Fits(b, mem)
    case ReceiveOp(chunk) => b.windex + |chunk| <= |ReadRoom(b)|
    case RetrieveOp(n) => b.rindex + n <= b.windex
  }

  function Apply(b: Storage, op: Op): (r: Storage)
    requires b.Valid() && Legal(b, op)
    ensures r.Valid()
  {
    match op
    case AppendOp(mem) => Append(b, mem)
    case ReceiveOp(chunk) => Receive(b, chunk)
    case RetrieveOp(n) => Retrieve(b, n)
  }

  predicate LegalRun(b: Storage, ops: seq<Op>)
    requires b.Valid()
    decreases |ops|
  {
    ops == [] || (Legal(b, ops[0]) && LegalRun(Apply(b, ops[0]), ops[1..]))
  }

  function Run(b: Storage, ops: seq<Op>): (r: Storage)
    requires b.Valid() && LegalRun(b, ops)
    ensures r.Valid()
    decreases |ops|
  {
    if ops == [] then b else Run(Apply(b, ops[0]), ops[1..])
  }

  function Brought(op: Op): Bytes
  {
    match op
    case AppendOp(mem) => mem
    case ReceiveOp(chunk) => chunk
    case RetrieveOp(_) => []
  }

  function TakenBy(b: Storage, op: Op): Bytes
    requires b.Valid() && Legal(b, op)
  {
    if op.RetrieveOp? then b.Contents()[..op.n] else []
  }

  /** The bytes that the operations bring in, in order. */
  function Arrived(ops: seq<Op>): Bytes
  {
    if ops == [] then [] else Brought(ops[0]) + Arrived(ops[1..])
  }

  /** The bytes that the retrievals take out, in order. */
  function Taken(b: Storage, ops: seq<Op>): Bytes
    requires b.Valid() && LegalRun(b, ops)
    decreases |ops|
  {
    if ops == [] then [] else TakenBy(b, ops[0]) + Taken(Apply(b, ops[0]), ops[1..])
  }

  lemma ApplyIsQueue(b: Storage, op: Op)
    requires b.Valid() && Legal(b, op)
    ensures var r := Apply(b, op);
            && r.Written() == b.Written() + Brought(op)
            && b.Contents() + Brought(op) == TakenBy(b, op) + r.Contents()
            && |r.data| >= |b.data|
  {
    hide Put;
    match op
    case AppendOp(mem) => PutExtends(b, RoomFor(b, |mem|), mem);
    case ReceiveOp(chunk) => PutExtends(b, ReadRoom(b), chunk);
    case RetrieveOp(n) =>
  }

  /** Refinement to a byte queue: under every legal run, with any growth in between, what comes
      out is what went in, in order; the storage before the write index is only extended; the
      capacity never shrinks. */
  lemma {:induction false} RunIsQueue(b: Storage, ops: seq<Op>)
    requires b.Valid() && LegalRun(b, ops)
    ensures b.Contents() + Arrived(ops) == Taken(b, ops) + Run(b, ops).Contents()
    ensures Run(b, ops).Written() == b.Written() + Arrived(ops)
    ensures |Run(b, ops).data| >= |b.data|
    decreases |ops|
  {
    hide Apply;
    hide Legal;
    hide Brought;
    hide TakenBy;
    hide Storage.Contents;
    hide Storage.Written;
    if ops == [] {
      assert b.Contents() + [] == [] + b.Contents();
    } else {
      var b1 := Apply(b, ops[0]);
      var rest := ops[1..];
      ApplyIsQueue(b, ops[0]);
      RunIsQueue(b1, rest);
      var i, o := Brought(ops[0]), TakenBy(b, ops[0]);
      Chain(b.Contents(), i, o, b1.Contents(), Arrived(rest), Taken(b1, rest), Run(b1, rest).Contents());
      assert b.Written() + (i + Arrived(rest)) == b.Written() + i + Arrived(rest);
    }
  }

  /** Stable views: a view into the written part keeps returning the same bytes, whatever the
      run appends, receives, retrieves and reallocates, until `clear`. */
  lemma ViewsAreStable(b: Storage, ops: seq<Op>, v: View)
    requires b.Valid() && LegalRun(b, ops) && v.In(b.Written())
    ensures v.In(Run(b, ops).data) && v.Str(Run(b, ops).data) == v.Str(b.data)
  {
    RunIsQueue(b, ops);
    var r := Run(b, ops);
    SliceOfPrefix(r.data, r.windex, v.begin, v.end);
    SliceOfPrefix(b.data, b.windex, v.begin, v.end);
    SliceOfPrefix(r.Written(), b.windex, v.begin, v.end);
    assert r.Written()[..b.windex] == b.Written();
  }

  lemma Chain(c0: Bytes, i: Bytes, o: Bytes, c1: Bytes, ii: Bytes, oo: Bytes, c2: Bytes)
    requires c0 + i == o + c1 && c1 + ii == oo + c2
    ensures c0 + (i + ii) == (o + oo) + c2
  {
    assert c0 + (i + ii) == (c0 + i) + ii == o + (c1 + ii);
    assert (o + oo) + c2 == o + (oo + c2);
  }
}
