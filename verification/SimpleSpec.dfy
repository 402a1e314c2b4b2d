/** What protocols/simple.cpp computes.

`Actual` follows the code: a length-prefixed field is taken as soon as `readable()`, which still
counts the four bytes of the length word, reaches the length alone.  `Intended` is the reference:
it waits for length plus four.  Both are functions of the storage or of the bytes received. */
module SimpleSpec {
  import opened Bytes
  import opened Protocol
  import opened BigEndian

  const MAGIC_NUM := 0x19951028

  /** A storage size that no machine reaches. */
  const MAX_STORAGE := TWO_64 - TWO_32 - 8

  datatype Kind = Request | Response

  datatype Ctx = Ctx(
    stage: nat,
    connType: ConnType,
    rpcStatus: RpcStatus,
    service: Bytes,
    methodName: Bytes,
    payloadView: View)

  const NEW_CTX := Ctx(0, Short, RpcOk, [], [], NO_VIEW)

  datatype Parse = Parse(status: Status, ctx: Ctx, pos: nat)

  /** The stage behind the last one. */
  function Last(k: Kind): nat { if k.Request? then 4 else 3 }

  function ConnCode(t: ConnType): nat
  {
    match t case Short => 0 case Single => 1 case Pool => 2
  }

  function ConnOf(n: int): ConnType
  {
    if n == 0 then Short else if n == 1 then Single else Pool
  }

  function StatusCode(t: RpcStatus): nat { if t.RpcOk? then 0 else 1 }

  function StatusOf(n: int): RpcStatus { if n == 0 then RpcOk else InvalidPath }

  function IntAt(s: Bytes, pos: nat): int
    requires pos + 4 <= |s|
  {
    DecodeInt(s[pos..pos + 4])
  }

  function LenAt(s: Bytes, pos: nat): nat
    requires pos + 4 <= |s|
  {
    Decode(s[pos..pos + 4])
  }

  // ---------------------------------------------------------------- the reference

  function MagicStage(c: Ctx, s: Bytes, pos: nat): Parse
    requires pos <= |s|
  {
    if |s| - pos < 4 then Parse(NoEnoughData, c, pos)
    else if IntAt(s, pos) != MAGIC_NUM then Parse(Error, c, pos)
    else Parse(PartSuccess, c.(stage := 1), pos + 4)
  }

  function ConnStage(k: Kind, c: Ctx, s: Bytes, pos: nat): Parse
    requires pos <= |s|
  {
    var need := if k.Request? then 4 else 8;
    if |s| - pos < need then Parse(NoEnoughData, c, pos) else
    var n := IntAt(s, pos);
    if !(0 <= n <= 2) then Parse(Error, c, pos) else
    var c1 := c.(connType := ConnOf(n));
    if k.Request? then Parse(PartSuccess, c1.(stage := 2), pos + 4) else
    var m := IntAt(s, pos + 4);
    if !(0 <= m <= 1) then Parse(Error, c1, pos + 4)
    else Parse(PartSuccess, c1.(rpcStatus := StatusOf(m), stage := 2), pos + 8)
  }

  /** The path field, once its bytes are there. */
  function TakePath(c: Ctx, path: Bytes, pos: nat): (r: Parse)
    ensures r.status in {Error, PartSuccess}
  {
    var i := IndexOf(path, '/', 0, |path|);
    if i == -1 then Parse(Error, c, pos + 4)
    else Parse(PartSuccess, c.(service := path[..i], methodName := path[i + 1..], stage := 3), pos + 4 + |path|)
  }

  /** The payload field, of length `len`. */
  function TakePayload(k: Kind, c: Ctx, len: nat, pos: nat): Parse
  {
    Parse(PartSuccess, c.(payloadView := View(pos + 4, pos + 4 + len), stage := Last(k)), pos + 4 + len)
  }

  function FieldStage(k: Kind, c: Ctx, s: Bytes, pos: nat): Parse
    requires pos <= |s|
  {
    if |s| - pos < 4 || |s| - pos < LenAt(s, pos) + 4 then Parse(NoEnoughData, c, pos)
    else if k.Request? && c.stage == 2 then TakePath(c, s[pos + 4..pos + 4 + LenAt(s, pos)], pos)
    else TakePayload(k, c, LenAt(s, pos), pos)
  }

  function Stage(k: Kind, c: Ctx, s: Bytes, pos: nat): (r: Parse)
    requires pos <= |s| && c.stage < Last(k)
    ensures pos <= r.pos <= |s|
    ensures r.status.PartSuccess? ==> c.stage < r.ctx.stage <= Last(k)
  {
    if c.stage == 0 then MagicStage(c, s, pos)
    else if c.stage == 1 then ConnStage(k, c, s, pos)
    else FieldStage(k, c, s, pos)
  }

  function Intended(k: Kind, c: Ctx, s: Bytes, pos: nat): (r: Parse)
    requires pos <= |s|
    ensures pos <= r.pos <= |s|
    decreases Last(k) - c.stage
  {
    if c.stage >= Last(k) then Parse(Success, c, pos) else
    var r := Stage(k, c, s, pos);
    if r.status.PartSuccess? then Intended(k, r.ctx, s, r.pos) else r
  }

  // ---------------------------------------------------------------- the code

  /** `readable()`, of unsigned type: it wraps around when the read index has passed the write index. */
  function Readable(w: nat, pos: nat): nat
  {
    if pos <= w then w - pos else (w - pos) % TWO_64
  }

  /** A field stage of the code on the storage `d` with write index `w`.  Bytes behind `w` are
      stale; an access outside `d` is `Wild`. */
  function ActualField(k: Kind, c: Ctx, d: Bytes, w: nat, pos: nat): Parse
    requires w <= |d|
  {
    if Readable(w, pos) < 4 then Parse(NoEnoughData, c, pos)
    else if pos + 4 > |d| then Parse(Wild, c, pos)
    else
      var len := LenAt(d, pos);
      if Readable(w, pos) < len then Parse(NoEnoughData, c, pos)
      else if k.Request? && c.stage == 2 then
        if pos + 4 + len > |d| then Parse(Wild, c, pos) else TakePath(c, d[pos + 4..pos + 4 + len], pos)
      else TakePayload(k, c, len, pos)
  }

  function Actual(k: Kind, c: Ctx, d: Bytes, w: nat, pos: nat): Parse
    requires w <= |d| && (c.stage < 2 ==> pos <= w)
    decreases Last(k) - c.stage
  {
    if c.stage >= Last(k) then Parse(Success, c, pos) else
    var r := if c.stage < 2 then Stage(k, c, d[..w], pos) else ActualField(k, c, d, w, pos);
    if r.status.PartSuccess? then Actual(k, r.ctx, d, w, r.pos) else r
  }

  /** The readable bytes do not end inside the last four bytes of a field. */
  predicate FieldGuard(s: Bytes, pos: nat)
    requires pos <= |s|
  {
    |s| - pos >= 4 ==> |s| - pos < LenAt(s, pos) || |s| - pos >= LenAt(s, pos) + 4
  }

  /** No field that a call on the bytes `s` reaches ends inside the last four of its bytes. */
  predicate Guard(k: Kind, c: Ctx, s: Bytes, pos: nat)
    requires pos <= |s|
    decreases Last(k) - c.stage
  {
    c.stage >= Last(k) ||
    ((c.stage >= 2 ==> FieldGuard(s, pos)) &&
     (var r := Stage(k, c, s, pos);
      r.status.PartSuccess? ==> Guard(k, r.ctx, s, r.pos)))
  }

  lemma SameWord(d: Bytes, w: nat, pos: nat)
    requires w <= |d| && pos + 4 <= w
    ensures LenAt(d, pos) == LenAt(d[..w], pos)
  {
    SliceOfPrefix(d, w, pos, pos + 4);
  }

  /** A field stage under the guard. */
  lemma GuardedField(k: Kind, c: Ctx, d: Bytes, w: nat, pos: nat)
    requires pos <= w <= |d| < TWO_64 && 2 <= c.stage < Last(k)
    requires FieldGuard(d[..w], pos)
    ensures ActualField(k, c, d, w, pos) == FieldStage(k, c, d[..w], pos)
  {
    hide LenAt;
    hide TakePath;
    if w - pos >= 4 {
      SameWord(d, w, pos);
      var len := LenAt(d, pos);
      if w - pos >= len + 4 {
        SliceOfPrefix(d, w, pos + 4, pos + 4 + len);
      }
    }
  }

  /** A field stage that fails the guard goes on although bytes are missing, and the code then
      never answers `NoEnoughData`. */
  lemma UnguardedField(k: Kind, c: Ctx, d: Bytes, w: nat, pos: nat)
    requires pos <= w <= |d| < MAX_STORAGE && 2 <= c.stage < Last(k)
    requires !FieldGuard(d[..w], pos)
    ensures FieldStage(k, c, d[..w], pos).status.NoEnoughData?
    ensures !Actual(k, c, d, w, pos).status.NoEnoughData?
  {
    SameWord(d, w, pos);
    var r := ActualField(k, c, d, w, pos);
    assert !r.status.NoEnoughData?;
    assert Actual(k, c, d, w, pos) == if r.status.PartSuccess? then Actual(k, r.ctx, d, w, r.pos) else r;
    if r.status.PartSuccess? && r.ctx.stage >= Last(k) {
      assert Actual(k, r.ctx, d, w, r.pos) == Parse(Success, r.ctx, r.pos);
    } else if r.status.PartSuccess? {
      assert r.pos > w;
      var q := ActualField(k, r.ctx, d, w, r.pos);
      assert Readable(w, r.pos) >= TWO_32;
      assert !q.status.NoEnoughData?;
      assert q.status.PartSuccess? ==> Actual(k, q.ctx, d, w, q.pos) == Parse(Success, q.ctx, q.pos);
      assert Actual(k, r.ctx, d, w, r.pos) == if q.status.PartSuccess? then Actual(k, q.ctx, d, w, q.pos) else q;
    }
  }

  /** A call does what the reference does if and only if it meets the guard; a call that does not
      meet it goes past the received bytes where the reference waits. */
  lemma {:induction false} ActualIsIntended(k: Kind, c: Ctx, d: Bytes, w: nat, pos: nat)
    requires pos <= w <= |d| < MAX_STORAGE
    ensures Guard(k, c, d[..w], pos) <==> Actual(k, c, d, w, pos) == Intended(k, c, d[..w], pos)
    ensures !Guard(k, c, d[..w], pos) ==>
              Intended(k, c, d[..w], pos).status.NoEnoughData? && !Actual(k, c, d, w, pos).status.NoEnoughData?
    decreases Last(k) - c.stage
  {
    if c.stage < Last(k) {
      var s := d[..w];
      if c.stage >= 2 {
        if FieldGuard(s, pos) {
          GuardedField(k, c, d, w, pos);
        } else {
          UnguardedField(k, c, d, w, pos);
          return;
        }
      }
      hide ActualField;
      hide Stage;
      var r := Stage(k, c, s, pos);
      if r.status.PartSuccess? {
        ActualIsIntended(k, r.ctx, d, w, r.pos);
      }
    }
  }

  // ---------------------------------------------------------------- overruns

  /** A call ends with an access outside the storage, or with a payload that reaches outside it. */
  predicate Outside(r: Parse, d: Bytes)
  {
    r.status.Wild? || (r.status.Success? && !r.ctx.payloadView.In(d))
  }

  /** The field at `pos` reaches behind the storage. */
  predicate FieldOutside(d: Bytes, pos: nat) { pos + 4 > |d| || pos + 4 + LenAt(d, pos) > |d| }

  /** A field that is taken too early reaches outside, or is a path in whose stale bytes there is a
      slash and behind which the payload field reaches outside. */
  predicate TakenOutside(k: Kind, c: Ctx, d: Bytes, pos: nat)
    requires pos + 4 <= |d|
  {
    || FieldOutside(d, pos)
    || (k.Request? && c.stage == 2 && '/' in d[pos + 4..pos + 4 + LenAt(d, pos)]
        && FieldOutside(d, pos + 4 + LenAt(d, pos)))
  }

  /** The call reaches a field that ends inside its last four bytes, and goes outside there. */
  predicate RunsOut(k: Kind, c: Ctx, d: Bytes, w: nat, pos: nat)
    requires pos <= w <= |d|
    decreases Last(k) - c.stage
  {
    c.stage < Last(k) &&
    if c.stage >= 2 && !FieldGuard(d[..w], pos) then TakenOutside(k, c, d, pos)
    else
      var r := Stage(k, c, d[..w], pos);
      r.status.PartSuccess? && RunsOut(k, r.ctx, d, w, r.pos)
  }

  lemma LastTaken(k: Kind, c: Ctx, d: Bytes, w: nat, pos: nat)
    requires w <= |d| < MAX_STORAGE && 2 <= c.stage < Last(k) && !(k.Request? && c.stage == 2)
    requires if pos <= w then pos + 4 <= w && w - pos >= LenAt(d, pos) else pos <= w + TWO_32
    ensures Outside(Actual(k, c, d, w, pos), d) <==> FieldOutside(d, pos)
  {
    if pos + 4 <= |d| {
      assert Readable(w, pos) >= LenAt(d, pos);
      var r := TakePayload(k, c, LenAt(d, pos), pos);
      assert Actual(k, c, d, w, pos) == Actual(k, r.ctx, d, w, r.pos) == Parse(Success, r.ctx, r.pos);
    }
  }

  lemma FieldTaken(k: Kind, c: Ctx, d: Bytes, w: nat, pos: nat)
    requires pos <= w <= |d| < MAX_STORAGE && 2 <= c.stage < Last(k) && !FieldGuard(d[..w], pos)
    ensures Outside(Actual(k, c, d, w, pos), d) <==> TakenOutside(k, c, d, pos)
  {
    SameWord(d, w, pos);
    if k.Request? && c.stage == 2 {
      var r := ActualField(k, c, d, w, pos);
      assert Actual(k, c, d, w, pos) == if r.status.PartSuccess? then Actual(k, r.ctx, d, w, r.pos) else r;
      if r.status.PartSuccess? {
        LastTaken(k, r.ctx, d, w, r.pos);
      }
    } else {
      LastTaken(k, c, d, w, pos);
    }
  }

  /** Exactly when a call leaves the storage, by the lengths in its fields. */
  lemma {:induction false} OutsideExactly(k: Kind, c: Ctx, d: Bytes, w: nat, pos: nat)
    requires pos <= w <= |d| < MAX_STORAGE && c.stage < Last(k)
    ensures Outside(Actual(k, c, d, w, pos), d) <==> RunsOut(k, c, d, w, pos)
    decreases Last(k) - c.stage
  {
    if c.stage >= 2 && !FieldGuard(d[..w], pos) {
      FieldTaken(k, c, d, w, pos);
    } else {
      if c.stage >= 2 {
        GuardedField(k, c, d, w, pos);
      }
      var r := Stage(k, c, d[..w], pos);
      if r.status.PartSuccess? && r.ctx.stage < Last(k) {
        OutsideExactly(k, r.ctx, d, w, r.pos);
      }
    }
  }

  // ---------------------------------------------------------------- chunking

  lemma WordExtends(s: Bytes, t: Bytes, pos: nat)
    requires pos + 4 <= |s|
    ensures IntAt(s + t, pos) == IntAt(s, pos) && LenAt(s + t, pos) == LenAt(s, pos)
  {
    assert s[pos..pos + 4] == (s + t)[pos..pos + 4];
  }

  lemma StageExtends(k: Kind, c: Ctx, s: Bytes, t: Bytes, pos: nat)
    requires pos <= |s| && c.stage < Last(k)
    ensures var r := Stage(k, c, s, pos);
            if r.status.NoEnoughData? then r.ctx == c && r.pos == pos
            else Stage(k, c, s + t, pos) == r
  {
    hide IntAt;
    hide LenAt;
    hide TakePath;
    if |s| - pos >= 4 {
      WordExtends(s, t, pos);
      if c.stage == 1 && |s| - pos >= 8 {
        WordExtends(s, t, pos + 4);
      }
      if c.stage >= 2 && |s| - pos >= LenAt(s, pos) + 4 {
        var e := pos + 4 + LenAt(s, pos);
        assert s[pos + 4..e] == (s + t)[pos + 4..e];
      }
    }
  }

  lemma {:induction false} IntendedExtends(k: Kind, c: Ctx, s: Bytes, t: Bytes, pos: nat)
    requires pos <= |s|
    ensures var r := Intended(k, c, s, pos);
            if r.status.NoEnoughData? then Intended(k, r.ctx, s + t, r.pos) == Intended(k, c, s + t, pos)
            else Intended(k, c, s + t, pos) == r
    decreases Last(k) - c.stage
  {
    hide Stage;
    if c.stage < Last(k) {
      StageExtends(k, c, s, t, pos);
      var r := Stage(k, c, s, pos);
      if r.status.PartSuccess? {
        IntendedExtends(k, r.ctx, s, t, r.pos);
      }
    }
  }

  /** A chunk that arrives, and the stale bytes that then lie behind the write index. */
  datatype Arrival = Arrival(chunk: Bytes, stale: Bytes)

  function Stream(arrivals: seq<Arrival>): Bytes
  {
    if arrivals == [] then [] else arrivals[0].chunk + Stream(arrivals[1..])
  }

  /** The code is called after each arrival until it answers something other than `NoEnoughData`. */
  function Feed(k: Kind, r: Parse, s: Bytes, arrivals: seq<Arrival>): Parse
    requires r.ctx.stage < 2 ==> r.pos <= |s|
    decreases |arrivals|
  {
    if arrivals == [] || !r.status.NoEnoughData? then r else
    var s1 := s + arrivals[0].chunk;
    var r1 := Actual(k, r.ctx, s1 + arrivals[0].stale, |s1|, r.pos);
    ActualEarly(k, r.ctx, s1 + arrivals[0].stale, |s1|, r.pos);
    Feed(k, r1, s1, arrivals[1..])
  }

  /** The first two stages do not overrun. */
  lemma {:induction false} ActualEarly(k: Kind, c: Ctx, d: Bytes, w: nat, pos: nat)
    requires w <= |d| && (c.stage < 2 ==> pos <= w)
    ensures var r := Actual(k, c, d, w, pos); r.ctx.stage < 2 ==> r.pos <= w
    decreases Last(k) - c.stage
  {
    if c.stage < Last(k) {
      var r := if c.stage < 2 then Stage(k, c, d[..w], pos) else ActualField(k, c, d, w, pos);
      if r.status.PartSuccess? {
        ActualEarly(k, r.ctx, d, w, r.pos);
      }
    }
  }

  /** The storage stays below `MAX_STORAGE` at every arrival. */
  predicate Small(s: Bytes, arrivals: seq<Arrival>)
    decreases |arrivals|
  {
    arrivals == [] ||
    (|s + arrivals[0].chunk + arrivals[0].stale| < MAX_STORAGE && Small(s + arrivals[0].chunk, arrivals[1..]))
  }

  /** Every call of the run meets the guard. */
  predicate GuardedRun(k: Kind, r: Parse, s: Bytes, arrivals: seq<Arrival>)
    requires r.pos <= |s|
    decreases |arrivals|
  {
    arrivals == [] || !r.status.NoEnoughData? ||
    (var s1 := s + arrivals[0].chunk;
     && Guard(k, r.ctx, s1, r.pos)
     && GuardedRun(k, Intended(k, r.ctx, s1, r.pos), s1, arrivals[1..]))
  }

  lemma {:induction false} FeedFrom(k: Kind, r: Parse, s: Bytes, arrivals: seq<Arrival>)
    requires r.pos <= |s| && arrivals != [] && r.status.NoEnoughData?
    requires Small(s, arrivals) && GuardedRun(k, r, s, arrivals)
    ensures Feed(k, r, s, arrivals) == Intended(k, r.ctx, s + Stream(arrivals), r.pos)
    decreases |arrivals|
  {
    hide Guard;
    hide Actual;
    hide Intended;
    var s1 := s + arrivals[0].chunk;
    var rest := arrivals[1..];
    var d := s1 + arrivals[0].stale;
    assert d[..|s1|] == s1;
    ActualIsIntended(k, r.ctx, d, |s1|, r.pos);
    var r1 := Intended(k, r.ctx, s1, r.pos);
    IntendedExtends(k, r.ctx, s1, Stream(rest), r.pos);
    assert s1 + Stream(rest) == s + Stream(arrivals);
    if rest == [] {
      assert s1 + [] == s1;
    } else if r1.status.NoEnoughData? {
      FeedFrom(k, r1, s1, rest);
    }
  }

  /** Chunking: for every stream and every cut in which each call meets the guard, and whatever
      the stale bytes are, the code gives the status, context and read index of one call of the
      reference on the whole stream, and the read index stays inside the received bytes. */
  lemma ChunkingUnderGuard(k: Kind, arrivals: seq<Arrival>)
    requires arrivals != [] && Small([], arrivals) && GuardedRun(k, START, [], arrivals)
    ensures var r := Feed(k, START, [], arrivals);
            r == Intended(k, NEW_CTX, Stream(arrivals), 0) && r.pos <= |Stream(arrivals)|
  {
    assert [] + Stream(arrivals) == Stream(arrivals);
    FeedFrom(k, START, [], arrivals);
  }

  const START := Parse(NoEnoughData, NEW_CTX, 0)

  /** Every call of the run answers what the reference answers, from scratch, on the bytes received
      so far. */
  predicate EachCallRight(k: Kind, r: Parse, s: Bytes, arrivals: seq<Arrival>)
    requires r.pos <= |s|
    decreases |arrivals|
  {
    arrivals == [] || !r.status.NoEnoughData? ||
    (var s1 := s + arrivals[0].chunk;
     var a := Actual(k, r.ctx, s1 + arrivals[0].stale, |s1|, r.pos);
     a == Intended(k, NEW_CTX, s1, 0) && EachCallRight(k, a, s1, arrivals[1..]))
  }

  lemma {:induction false} RunExactly(k: Kind, r: Parse, s: Bytes, arrivals: seq<Arrival>)
    requires Small(s, arrivals)
    requires r == Intended(k, NEW_CTX, s, 0) || (s == [] && r == START)
    ensures EachCallRight(k, r, s, arrivals) <==> GuardedRun(k, r, s, arrivals)
    decreases |arrivals|
  {
    hide Guard;
    hide Actual;
    hide Intended;
    if arrivals != [] && r.status.NoEnoughData? {
      var s1 := s + arrivals[0].chunk;
      var d := s1 + arrivals[0].stale;
      assert d[..|s1|] == s1;
      ActualIsIntended(k, r.ctx, d, |s1|, r.pos);
      IntendedExtends(k, NEW_CTX, s, arrivals[0].chunk, 0);
      RunExactly(k, Intended(k, NEW_CTX, s1, 0), s1, arrivals[1..]);
    }
  }

  /** Over whole runs the guard is exact: for every cut and whatever the stale bytes are, every call
      is right if and only if every call meets the guard. */
  lemma ChunkingExactly(k: Kind, arrivals: seq<Arrival>)
    requires Small([], arrivals)
    ensures EachCallRight(k, START, [], arrivals) <==> GuardedRun(k, START, [], arrivals)
  {
    RunExactly(k, START, [], arrivals);
  }
}
