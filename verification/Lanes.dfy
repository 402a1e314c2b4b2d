/** Two-lane output: `Buffer::write_fd` sends the data lane and then the extra lane, over any
    number of calls with any results of `::write`. */
module Lanes {
  import opened Bytes
  import opened BufferSpec

  /** The result of one `::write`; `Fatal` is any other error, on which the process aborts. */
  datatype WriteResult = Wrote(n: nat) | WouldBlock | BrokenPipe | Fatal

  /** What one call leaves and returns; a call that aborts does not return. */
  datatype Written = Written(buffer: Storage, ret: int) | Aborted(buffer: Storage)

  /** `::write` never reports more than it was offered. */
  predicate Plausible(w: WriteResult, offered: nat) { w.Wrote? ==> w.n <= offered }

  predicate Offered(b: Storage, w1: WriteResult, w2: WriteResult)
    requires b.Valid()
  {
    Plausible(w1, b.windex - b.rindex) && Plausible(w2, |b.extraData| - b.extraIndex)
  }

  /** `write_fd`: `w1` and `w2` are the results of its two writes, where it gets to them.  The extra
      lane is tried even after a short write of the data lane. */
  function WriteFd(b: Storage, w1: WriteResult, w2: WriteResult): (r: Written)
    requires b.Valid() && Offered(b, w1, w2)
    ensures r.buffer.Valid() && r.buffer.rindex >= b.rindex && r.buffer.extraIndex >= b.extraIndex
    ensures r.buffer == b.(rindex := r.buffer.rindex, extraIndex := r.buffer.extraIndex)
  {
    if b.rindex < b.windex && w1.WouldBlock? then Written(b, -1)
    else if b.rindex < b.windex && w1.BrokenPipe? then Written(b, 0)
    else if b.rindex < b.windex && w1.Fatal? then Aborted(b)
    else
      var n1 := if b.rindex < b.windex then w1.n else 0;
      var b1 := b.(rindex := b.rindex + n1);
      if b.extraIndex == |b.extraData| then Written(b1, n1)
      else match w2
      case WouldBlock => Written(b1, -1)
      case BrokenPipe => Written(b1, 0)
      case Fatal => Aborted(b1)
      case Wrote(n) => Written(b1.(extraIndex := b.extraIndex + n), n1 + n)
  }

  /** A byte on the wire, by its origin. */
  datatype Token = FromData(i: nat) | FromExtra(i: nat)

  function DataTokens(lo: nat, hi: nat): (r: seq<Token>)
    requires lo <= hi
  {
    seq(hi - lo, i requires 0 <= i < hi - lo => FromData(lo + i))
  }

  function ExtraTokens(lo: nat, hi: nat): (r: seq<Token>)
    requires lo <= hi
  {
    seq(hi - lo, i requires 0 <= i < hi - lo => FromExtra(lo + i))
  }

  /** The first `::write` is made: there are data bytes. */
  predicate Makes1(b: Storage) { b.rindex < b.windex }

  /** The second one is made: there are extra bytes, and the first one was not needed or reported a
      number. */
  predicate Makes2(b: Storage, w1: WriteResult)
  {
    b.extraIndex < |b.extraData| && (!Makes1(b) || w1.Wrote?)
  }

  /** What a `::write` takes, if it is made. */
  function Took(made: bool, w: WriteResult): nat { if made && w.Wrote? then w.n else 0 }

  /** What a call puts on the wire: the bytes that its two writes took, from where each was offered
      them.  What `write_fd` makes of the indices does not matter here. */
  function Sent(b: Storage, w1: WriteResult, w2: WriteResult): seq<Token>
    requires b.Valid() && Offered(b, w1, w2)
  {
    DataTokens(b.rindex, b.rindex + Took(Makes1(b), w1))
    + ExtraTokens(b.extraIndex, b.extraIndex + Took(Makes2(b, w1), w2))
  }

  /** The indices move by exactly what was taken, and the lanes stay as they are. */
  lemma IndicesMove(b: Storage, w1: WriteResult, w2: WriteResult)
    requires b.Valid() && Offered(b, w1, w2)
    ensures WriteFd(b, w1, w2).buffer ==
            b.(rindex := b.rindex + Took(Makes1(b), w1), extraIndex := b.extraIndex + Took(Makes2(b, w1), w2))
  {
  }

  /** The return value says what happened: the number of bytes sent if every write that was made
      reported one, otherwise -1 or 0 for the first that did not; an abort for any other error. */
  lemma ReturnMeaning(b: Storage, w1: WriteResult, w2: WriteResult)
    requires b.Valid() && Offered(b, w1, w2)
    ensures var r := WriteFd(b, w1, w2);
            && (r.Aborted? <==> (Makes1(b) && w1.Fatal?) || (Makes2(b, w1) && w2.Fatal?))
            && (r.Written? ==>
                  r.ret == if (Makes1(b) && w1.WouldBlock?) || (Makes2(b, w1) && w2.WouldBlock?) then -1
                           else if (Makes1(b) && w1.BrokenPipe?) || (Makes2(b, w1) && w2.BrokenPipe?) then 0
                           else |Sent(b, w1, w2)|)
  {
  }

  /** A run of calls; after a call that aborts there is no other. */
  predicate OfferedRun(b: Storage, ws: seq<(WriteResult, WriteResult)>)
    requires b.Valid()
    decreases |ws|
  {
    ws == [] ||
    (&& Offered(b, ws[0].0, ws[0].1)
     && (var r := WriteFd(b, ws[0].0, ws[0].1);
         (r.Aborted? ==> |ws| == 1) && OfferedRun(r.buffer, ws[1..])))
  }

  function RunBuffer(b: Storage, ws: seq<(WriteResult, WriteResult)>): (r: Storage)
    requires b.Valid() && OfferedRun(b, ws)
    ensures r.Valid() && r.data == b.data && r.windex == b.windex && r.extraData == b.extraData
    ensures r.rindex >= b.rindex && r.extraIndex >= b.extraIndex
    decreases |ws|
  {
    if ws == [] then b else RunBuffer(WriteFd(b, ws[0].0, ws[0].1).buffer, ws[1..])
  }

  function RunWire(b: Storage, ws: seq<(WriteResult, WriteResult)>): seq<Token>
    requires b.Valid() && OfferedRun(b, ws)
    decreases |ws|
  {
    if ws == [] then []
    else Sent(b, ws[0].0, ws[0].1) + RunWire(WriteFd(b, ws[0].0, ws[0].1).buffer, ws[1..])
  }

  function Pick(t: Token, data: bool): seq<Token> { if t.FromData? == data then [t] else [] }

  /** The tokens of one lane. */
  function Only(wire: seq<Token>, data: bool): seq<Token>
  {
    if wire == [] then [] else Pick(wire[0], data) + Only(wire[1..], data)
  }

  lemma {:induction false} OnlyOfJoin(a: seq<Token>, b: seq<Token>, data: bool)
    ensures Only(a + b, data) == Only(a, data) + Only(b, data)
  {
    hide Pick;
    if a == [] {
      assert [] + b == b;
      assert [] + Only(b, data) == Only(b, data);
    } else {
      OnlyOfJoin(a[1..], b, data);
      OnlyOfMore(a[0], a[1..], data);
      OnlyOfMore(a[0], a[1..] + b, data);
      hide Only;
      HeadAndTail(a, b);
      Associative(Pick(a[0], data), Only(a[1..], data), Only(b, data));
    }
  }

  lemma HeadAndTail<T>(a: seq<T>, b: seq<T>)
    requires a != []
    ensures [a[0]] + a[1..] == a && [a[0]] + (a[1..] + b) == a + b
  {
  }

  lemma Associative<T>(a: seq<T>, b: seq<T>, c: seq<T>)
    ensures a + (b + c) == a + b + c
  {
  }

  lemma OnlyOfMore(t: Token, wire: seq<Token>, data: bool)
    ensures Only([t] + wire, data) == Pick(t, data) + Only(wire, data)
  {
    hide Pick;
    assert ([t] + wire)[1..] == wire;
  }

  lemma {:induction false} OnlyOfDataTokens(lo: nat, hi: nat)
    requires lo <= hi
    ensures Only(DataTokens(lo, hi), true) == DataTokens(lo, hi) && Only(DataTokens(lo, hi), false) == []
    decreases hi - lo
  {
    if lo < hi {
      assert DataTokens(lo, hi)[1..] == DataTokens(lo + 1, hi);
      OnlyOfDataTokens(lo + 1, hi);
    }
  }

  lemma {:induction false} OnlyOfExtraTokens(lo: nat, hi: nat)
    requires lo <= hi
    ensures Only(ExtraTokens(lo, hi), false) == ExtraTokens(lo, hi) && Only(ExtraTokens(lo, hi), true) == []
    decreases hi - lo
  {
    if lo < hi {
      assert ExtraTokens(lo, hi)[1..] == ExtraTokens(lo + 1, hi);
      OnlyOfExtraTokens(lo + 1, hi);
    }
  }

  /** Over any run, the bytes sent from each lane are consecutive bytes of that lane: none is lost,
      repeated or reordered within its lane. */
  lemma {:induction false} LanesArePrefixes(b: Storage, ws: seq<(WriteResult, WriteResult)>)
    requires b.Valid() && OfferedRun(b, ws)
    ensures Only(RunWire(b, ws), true) == DataTokens(b.rindex, RunBuffer(b, ws).rindex)
    ensures Only(RunWire(b, ws), false) == ExtraTokens(b.extraIndex, RunBuffer(b, ws).extraIndex)
    decreases |ws|
  {
    hide WriteFd;
    if ws != [] {
      var b1 := WriteFd(b, ws[0].0, ws[0].1).buffer;
      LanesArePrefixes(b1, ws[1..]);
      CallLanes(b, ws[0].0, ws[0].1);
      var s, t := Sent(b, ws[0].0, ws[0].1), RunWire(b1, ws[1..]);
      OnlyOfJoin(s, t, true);
      OnlyOfJoin(s, t, false);
      hide Sent;
      hide RunWire;
      var r := RunBuffer(b, ws);
      TokensJoin(b.rindex, b1.rindex, r.rindex);
      TokensJoin(b.extraIndex, b1.extraIndex, r.extraIndex);
    }
  }

  lemma TokensJoin(i: nat, j: nat, k: nat)
    requires i <= j <= k
    ensures DataTokens(i, j) + DataTokens(j, k) == DataTokens(i, k)
    ensures ExtraTokens(i, j) + ExtraTokens(j, k) == ExtraTokens(i, k)
  {
  }

  lemma CallLanes(b: Storage, w1: WriteResult, w2: WriteResult)
    requires b.Valid() && Offered(b, w1, w2)
    ensures var r := WriteFd(b, w1, w2).buffer;
            && r.rindex >= b.rindex && r.extraIndex >= b.extraIndex
            && Only(Sent(b, w1, w2), true) == DataTokens(b.rindex, r.rindex)
            && Only(Sent(b, w1, w2), false) == ExtraTokens(b.extraIndex, r.extraIndex)
  {
    IndicesMove(b, w1, w2);
    hide WriteFd;
    hide Took;
    hide Only;
    var r := WriteFd(b, w1, w2).buffer;
    var d, x := DataTokens(b.rindex, r.rindex), ExtraTokens(b.extraIndex, r.extraIndex);
    assert Sent(b, w1, w2) == d + x;
    hide Sent;
    hide DataTokens;
    hide ExtraTokens;
    OnlyOfJoin(d, x, true);
    OnlyOfJoin(d, x, false);
    OnlyOfDataTokens(b.rindex, r.rindex);
    OnlyOfExtraTokens(b.extraIndex, r.extraIndex);
    assert d + [] == d && [] + x == x;
  }

  /** Everything still to be sent, in the order in which the peer expects it. */
  function Message(b: Storage): seq<Token>
    requires b.Valid()
  {
    DataTokens(b.rindex, b.windex) + ExtraTokens(b.extraIndex, |b.extraData|)
  }

  /** The first write is short: it leaves data bytes behind. */
  predicate Short(b: Storage, w1: WriteResult) { w1.Wrote? && b.rindex + w1.n < b.windex }

  /** In no call is a short write of the data lane followed by a write that sends extra bytes. */
  predicate DataFirst(b: Storage, ws: seq<(WriteResult, WriteResult)>)
    requires b.Valid() && OfferedRun(b, ws)
    decreases |ws|
  {
    ws == [] ||
    (!(Short(b, ws[0].0) && ws[0].1.Wrote? && ws[0].1.n > 0) && DataFirst(WriteFd(b, ws[0].0, ws[0].1).buffer, ws[1..]))
  }

  /** In every call a short write of the data lane is followed by would-block. */
  predicate BlocksBehindShort(b: Storage, ws: seq<(WriteResult, WriteResult)>)
    requires b.Valid() && OfferedRun(b, ws)
    decreases |ws|
  {
    ws == [] ||
    ((Short(b, ws[0].0) ==> ws[0].1.WouldBlock?) && BlocksBehindShort(WriteFd(b, ws[0].0, ws[0].1).buffer, ws[1..]))
  }

  lemma CallInOrder(b: Storage, w1: WriteResult, w2: WriteResult)
    requires b.Valid() && Offered(b, w1, w2)
    ensures var r := WriteFd(b, w1, w2);
            if !(Short(b, w1) && w2.Wrote? && w2.n > 0)
            then Message(b) == Sent(b, w1, w2) + Message(r.buffer)
            else !(Sent(b, w1, w2) <= Message(b))
  {
    IndicesMove(b, w1, w2);
    var n1, n2 := Took(Makes1(b), w1), Took(Makes2(b, w1), w2);
    assert n2 > 0 && b.rindex + n1 < b.windex <==> Short(b, w1) && w2.Wrote? && w2.n > 0;
    assert Sent(b, w1, w2) == DataTokens(b.rindex, b.rindex + n1) + ExtraTokens(b.extraIndex, b.extraIndex + n2);
    hide WriteFd;
    hide Sent;
    hide Took;
    if n2 > 0 && b.rindex + n1 < b.windex {
      ExtraBeforeData(b, n1, n2);
    } else {
      DataBeforeExtra(b, n1, n2);
    }
  }

  lemma ExtraBeforeData(b: Storage, n1: nat, n2: nat)
    requires b.Valid() && b.rindex + n1 < b.windex && n2 > 0
    ensures !(DataTokens(b.rindex, b.rindex + n1) + ExtraTokens(b.extraIndex, b.extraIndex + n2) <= Message(b))
  {
    var wire := DataTokens(b.rindex, b.rindex + n1) + ExtraTokens(b.extraIndex, b.extraIndex + n2);
    assert wire[n1] == FromExtra(b.extraIndex);
    assert Message(b)[n1] == FromData(b.rindex + n1);
  }

  lemma DataBeforeExtra(b: Storage, n1: nat, n2: nat)
    requires b.Valid() && b.rindex + n1 <= b.windex && b.extraIndex + n2 <= |b.extraData|
    requires n2 > 0 ==> b.rindex + n1 == b.windex
    ensures var r := b.(rindex := b.rindex + n1, extraIndex := b.extraIndex + n2);
            Message(b) ==
            DataTokens(b.rindex, b.rindex + n1) + ExtraTokens(b.extraIndex, b.extraIndex + n2) + Message(r)
  {
  }

  /** The wire is a prefix of data followed by extra exactly when no call of the run sends extra
      bytes behind a short data write. */
  lemma {:induction false} WireInOrder(b: Storage, ws: seq<(WriteResult, WriteResult)>)
    requires b.Valid() && OfferedRun(b, ws)
    ensures RunWire(b, ws) <= Message(b) <==> DataFirst(b, ws)
    ensures DataFirst(b, ws) ==> Message(b) == RunWire(b, ws) + Message(RunBuffer(b, ws))
    decreases |ws|
  {
    hide WriteFd;
    hide Message;
    hide Sent;
    if ws == [] {
      assert [] + Message(b) == Message(b);
    } else {
      var b1 := WriteFd(b, ws[0].0, ws[0].1).buffer;
      CallInOrder(b, ws[0].0, ws[0].1);
      WireInOrder(b1, ws[1..]);
      OrderStep(Message(b), Sent(b, ws[0].0, ws[0].1), Message(b1), RunWire(b1, ws[1..]),
                Message(RunBuffer(b, ws)));
    }
  }

  /** In particular when a short data write is always followed by would-block in the same call. */
  lemma {:induction false} BlockingKeepsOrder(b: Storage, ws: seq<(WriteResult, WriteResult)>)
    requires b.Valid() && OfferedRun(b, ws) && BlocksBehindShort(b, ws)
    ensures DataFirst(b, ws) && RunWire(b, ws) <= Message(b)
    decreases |ws|
  {
    if ws != [] {
      BlockingKeepsOrder(WriteFd(b, ws[0].0, ws[0].1).buffer, ws[1..]);
    }
    WireInOrder(b, ws);
  }

  lemma OrderStep<T>(m: seq<T>, s: seq<T>, m1: seq<T>, t: seq<T>, end: seq<T>)
    ensures s + t <= m ==> s <= m
    ensures m == s + m1 ==> (s + t <= m <==> t <= m1)
    ensures m == s + m1 && m1 == t + end ==> m == s + t + end
  {
    if s + t <= m && m == s + m1 {
      assert t == (s + t)[|s|..] && m1 == m[|s|..];
    }
    if m == s + m1 && m1 == t + end {
      assert s + (t + end) == s + t + end;
    }
  }

  /** `clear` empties the data lane, but makes the old payload ready to be sent again until another
      one replaces it. */
  lemma ClearedMessage(b: Storage)
    requires b.Valid()
    ensures Clear(b).Valid() && Clear(b).data == b.data && Clear(b).Contents() == []
    ensures Message(Clear(b)) == ExtraTokens(0, |b.extraData|)
  {
  }

  function ByteOf(b: Storage, t: Token): char
  {
    match t
    case FromData(i) => if i < |b.data| then b.data[i] else '\0'
    case FromExtra(i) => if i < |b.extraData| then b.extraData[i] else '\0'
  }

  /** The bytes of tokens. */
  function BytesOf(b: Storage, wire: seq<Token>): Bytes
  {
    seq(|wire|, i requires 0 <= i < |wire| => ByteOf(b, wire[i]))
  }

  lemma BytesOfMessage(b: Storage)
    requires b.Valid()
    ensures BytesOf(b, Message(b)) == b.Contents() + b.extraData[b.extraIndex..]
  {
    var n := b.windex - b.rindex;
    forall i | 0 <= i < |Message(b)|
      ensures ByteOf(b, Message(b)[i]) == (b.Contents() + b.extraData[b.extraIndex..])[i]
    {
      if i < n {
        assert Message(b)[i] == FromData(b.rindex + i);
      } else {
        assert Message(b)[i] == FromExtra(b.extraIndex + i - n);
      }
    }
  }

  /** When the synchronous client loop exits (both lanes drained) after a run in order, the wire
      holds exactly the data lane followed by the extra lane. */
  lemma DrainedWire(b: Storage, ws: seq<(WriteResult, WriteResult)>)
    requires b.Valid() && OfferedRun(b, ws) && DataFirst(b, ws)
    requires var r := RunBuffer(b, ws); r.rindex == r.windex && r.extraIndex == |r.extraData|
    ensures RunWire(b, ws) == Message(b)
    ensures BytesOf(b, RunWire(b, ws)) == b.Contents() + b.extraData[b.extraIndex..]
  {
    WireInOrder(b, ws);
    assert Message(RunBuffer(b, ws)) == [];
    assert RunWire(b, ws) + [] == RunWire(b, ws);
    BytesOfMessage(b);
  }

  // ---------------------------------------------------------------- completion at the server

  /** The server's completion test behind `write_fd` (net/tcpconnection.cpp:31): the data lane is
      empty.  What the extra lane still holds does not matter. */
  predicate TestHolds(b: Storage, w1: WriteResult, w2: WriteResult)
    requires b.Valid() && Offered(b, w1, w2)
  {
    var r := WriteFd(b, w1, w2);
    r.Written? && r.buffer.rindex == r.buffer.windex
  }

  /** The calls that the server makes for one response: one for each writable event, until the test
      holds.  Then `write_complete_callback` clears the buffer. */
  predicate UntilComplete(b: Storage, ws: seq<(WriteResult, WriteResult)>)
    requires b.Valid() && OfferedRun(b, ws)
    decreases |ws|
  {
    && ws != []
    && (if |ws| == 1 then TestHolds(b, ws[0].0, ws[0].1)
        else !TestHolds(b, ws[0].0, ws[0].1) && UntilComplete(WriteFd(b, ws[0].0, ws[0].1).buffer, ws[1..]))
  }

  /** The whole extra lane goes out in the second write of the last call. */
  predicate ExtraInOneWrite(b: Storage, ws: seq<(WriteResult, WriteResult)>)
    requires ws != [] && b.Valid()
  {
    b.extraIndex == |b.extraData| || ws[|ws| - 1].1 == Wrote(|b.extraData| - b.extraIndex)
  }

  lemma {:induction false} CompleteWithoutData(b: Storage, ws: seq<(WriteResult, WriteResult)>)
    requires b.Valid() && OfferedRun(b, ws) && UntilComplete(b, ws)
    ensures RunBuffer(b, ws).rindex == b.windex
    decreases |ws|
  {
    if |ws| > 1 {
      CompleteWithoutData(WriteFd(b, ws[0].0, ws[0].1).buffer, ws[1..]);
    } else {
      assert ws[1..] == [];
    }
  }

  /** With the data lane sent first, the extra lane moves in the last call only. */
  lemma {:induction false} ExtraMovesLast(b: Storage, ws: seq<(WriteResult, WriteResult)>)
    requires b.Valid() && OfferedRun(b, ws) && UntilComplete(b, ws) && DataFirst(b, ws)
    ensures RunBuffer(b, ws).extraIndex == |b.extraData| <==> ExtraInOneWrite(b, ws)
    decreases |ws|
  {
    var r := WriteFd(b, ws[0].0, ws[0].1).buffer;
    assert |ws| == 1 ==> ws[1..] == [] && RunBuffer(b, ws) == r;
    if |ws| > 1 {
      assert r.extraIndex == b.extraIndex;
      ExtraMovesLast(r, ws[1..]);
      assert ws[1..][|ws| - 2] == ws[|ws| - 1];
    }
  }

  /** What the server has sent when it clears the buffer is the whole response, in order, if and only
      if no call sends extra bytes behind a short data write and the whole extra lane goes out in a
      single write of the call that finishes the data lane. */
  lemma CompletionExactly(b: Storage, ws: seq<(WriteResult, WriteResult)>)
    requires b.Valid() && OfferedRun(b, ws) && UntilComplete(b, ws)
    ensures RunWire(b, ws) == Message(b) <==> DataFirst(b, ws) && ExtraInOneWrite(b, ws)
  {
    WireInOrder(b, ws);
    if DataFirst(b, ws) {
      CompleteWithoutData(b, ws);
      ExtraMovesLast(b, ws);
      var m := Message(RunBuffer(b, ws));
      assert |m| == |b.extraData| - RunBuffer(b, ws).extraIndex;
      assert |Message(b)| == |RunWire(b, ws)| + |m|;
    }
  }

  /** The rest of a payload can be lost: the head goes out whole, the payload in part, the test holds
      and the byte '!' is never sent. */
  lemma PayloadIsLost()
    ensures var b := Storage("ok", 0, 2, "hi!", 0);
            var ws := [(Wrote(2), Wrote(2))];
            && OfferedRun(b, ws) && UntilComplete(b, ws)
            && BytesOf(b, RunWire(b, ws)) == "okhi" && RunBuffer(b, ws).extraIndex == 2
            && RunWire(b, ws) != Message(b)
  {
    var b := Storage("ok", 0, 2, "hi!", 0);
    var ws := [(Wrote(2), Wrote(2))];
    assert ws[1..] == [];
    assert RunWire(b, ws) == [FromData(0), FromData(1), FromExtra(0), FromExtra(1)];
    CompletionExactly(b, ws);
  }

  /** The order is not kept in general: a short data write followed by a successful extra write. */
  lemma OutOfOrder()
    ensures var b := Storage("ab", 0, 2, "x", 0);
            && OfferedRun(b, [(Wrote(1), Wrote(1))])
            && RunWire(b, [(Wrote(1), Wrote(1))]) == [FromData(0), FromExtra(0)]
            && !(RunWire(b, [(Wrote(1), Wrote(1))]) <= Message(b))
  {
    var b := Storage("ab", 0, 2, "x", 0);
    var ws := [(Wrote(1), Wrote(1))];
    assert ws[1..] == [];
    WireInOrder(b, ws);
  }
}
