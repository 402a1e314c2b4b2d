/** The HTTP parsers give one answer however the stream is cut.

No hypothesis on the bytes is needed: `std::stoi` is modelled with its exceptions.  The exact
condition is about the cast of `readable()` to `int` in `_parse_body`, which streams shorter than
2^31 bytes always meet. */
module HttpChunking {
  import opened Bytes
  import opened Protocol
  import opened HttpSpec

  /** A line end, or the verdict that the line is too long, survives the arrival of more bytes. */
  lemma FindLineExtends(s: Bytes, t: Bytes, pos: nat, limit: nat)
    requires pos <= |s| && limit > 0
    requires FindLine(s, pos, limit) != NoLine(NoEnoughData)
    ensures FindLine(s + t, pos, limit) == FindLine(s, pos, limit)
  {
    var size := Min(|s| - pos, limit);
    var wide := Min(|s + t| - pos, limit);
    if FindCrlf(s, pos, pos + size) != -1 {
      FindCrlfExtends(s, t, pos, pos + size, pos + wide);
    } else {
      forall i | pos <= i && i + 2 <= pos + limit ensures !CrlfAt(s + t, i) {
        assert !CrlfAt(s, i);
      }
    }
  }

  lemma {:induction false} HeadersExtend(c: Ctx, s: Bytes, t: Bytes, pos: nat)
    requires pos <= |s|
    ensures var r := ParseHeaders(c, s, pos);
            if r.status.NoEnoughData? then ParseHeaders(r.ctx, s + t, r.pos) == ParseHeaders(c, s + t, pos)
            else ParseHeaders(c, s + t, pos) == r
    decreases |s| - pos
  {
    hide HeaderLine;
    hide FindLine;
    var l := FindLine(s, pos, MAX_HEADER_SIZE);
    if l != NoLine(NoEnoughData) {
      FindLineExtends(s, t, pos, MAX_HEADER_SIZE);
      if l.LineAt? && l.end != pos {
        assert (s + t)[pos..l.end] == s[pos..l.end];
        var h := HeaderLine(c, s[pos..l.end]);
        if h.status.PartSuccess? {
          HeadersExtend(h.ctx, s, t, l.end + 2);
        }
      }
    }
  }

  /** The exact condition for chunking independence.  `_parse_body` casts `readable()` to `int`; on
      the whole stream the cast must not turn a complete body into a missing one.  It cannot when
      fewer than 2^31 bytes follow the headers. */
  predicate CastHarmless(k: Kind, c: Ctx, s: Bytes, pos: nat)
    requires pos <= |s|
    decreases 3 - c.stage
  {
    if c.stage >= 3 then true
    else if c.stage == 2 then |s| - pos >= c.bodySize ==> AsInt32(|s| - pos) >= c.bodySize
    else
      var r := Stage(k, c, s, pos);
      r.status.PartSuccess? ==> CastHarmless(k, r.ctx.(stage := c.stage + 1), s, r.pos)
  }

  lemma {:induction false} ShortIsHarmless(k: Kind, c: Ctx, s: Bytes, pos: nat)
    requires pos <= |s| <= INT_MAX
    ensures CastHarmless(k, c, s, pos)
    decreases 3 - c.stage
  {
    hide Stage;
    if c.stage < 2 && Stage(k, c, s, pos).status.PartSuccess? {
      var r := Stage(k, c, s, pos);
      ShortIsHarmless(k, r.ctx.(stage := c.stage + 1), s, r.pos);
    }
  }

  lemma StageExtends(k: Kind, c: Ctx, s: Bytes, t: Bytes, pos: nat)
    requires pos <= |s| && c.stage < 3
    requires c.stage == 2 ==> CastHarmless(k, c, s + t, pos)
    ensures var r := Stage(k, c, s, pos);
            if r.status.NoEnoughData? then Stage(k, r.ctx, s + t, r.pos) == Stage(k, c, s + t, pos)
            else Stage(k, c, s + t, pos) == r
  {
    if c.stage == 0 {
      var l := FindLine(s, pos, MAX_HEADLINE_SIZE);
      if l != NoLine(NoEnoughData) {
        FindLineExtends(s, t, pos, MAX_HEADLINE_SIZE);
        if l.LineAt? {
          assert (s + t)[pos..l.end] == s[pos..l.end];
        }
      }
    } else if c.stage == 1 {
      HeadersExtend(c, s, t, pos);
    }
  }

  /** A call that ran out of data leaves a state from which the next call continues as if all bytes
      had been there from the start, whatever the cast does. */
  lemma {:induction false} ParseResumes(k: Kind, c: Ctx, s: Bytes, t: Bytes, pos: nat)
    requires pos <= |s| && ParseMsg(k, c, s, pos).status.NoEnoughData?
    ensures var r := ParseMsg(k, c, s, pos);
            && ParseMsg(k, r.ctx, s + t, r.pos) == ParseMsg(k, c, s + t, pos)
            && (CastHarmless(k, r.ctx, s + t, r.pos) <==> CastHarmless(k, c, s + t, pos))
    decreases 3 - c.stage
  {
    if c.stage < 2 {
      StageExtends(k, c, s, t, pos);
      hide FirstLine;
      hide FindLine;
      hide ParseHeaders;
      var r := Stage(k, c, s, pos);
      if r.status.PartSuccess? {
        ParseResumes(k, r.ctx.(stage := c.stage + 1), s, t, r.pos);
      }
    }
  }

  /** More bytes never change a verdict. */
  lemma {:induction false} VerdictIsFinal(k: Kind, c: Ctx, s: Bytes, t: Bytes, pos: nat)
    requires pos <= |s| && !ParseMsg(k, c, s, pos).status.NoEnoughData?
    requires CastHarmless(k, c, s + t, pos)
    ensures ParseMsg(k, c, s + t, pos) == ParseMsg(k, c, s, pos)
    decreases 3 - c.stage
  {
    if c.stage < 3 {
      StageExtends(k, c, s, t, pos);
      hide FirstLine;
      hide FindLine;
      hide ParseHeaders;
      var r := Stage(k, c, s, pos);
      if r.status.PartSuccess? {
        VerdictIsFinal(k, r.ctx.(stage := c.stage + 1), s, t, r.pos);
      }
    }
  }

  /** A stream that is accepted as a whole meets the condition. */
  lemma {:induction false} SuccessIsHarmless(k: Kind, c: Ctx, s: Bytes, pos: nat)
    requires pos <= |s| && ParseMsg(k, c, s, pos).status.Success?
    ensures CastHarmless(k, c, s, pos)
    decreases 3 - c.stage
  {
    hide FirstLine;
    hide FindLine;
    hide ParseHeaders;
    if c.stage < 2 && Stage(k, c, s, pos).status.PartSuccess? {
      var r := Stage(k, c, s, pos);
      SuccessIsHarmless(k, r.ctx.(stage := c.stage + 1), s, r.pos);
    }
  }

  /** Bytes arrive in chunks; after each one the parser is called, until it answers something
      other than `NoEnoughData`.  `s` is what has arrived before, `r` what the last call left. */
  function Feed(k: Kind, r: Parse, s: Bytes, chunks: seq<Bytes>): Parse
    requires r.pos <= |s|
    decreases |chunks|
  {
    if chunks == [] || !r.status.NoEnoughData? then r
    else Feed(k, ParseMsg(k, r.ctx, s + chunks[0], r.pos), s + chunks[0], chunks[1..])
  }

  lemma {:induction false} FeedFrom(k: Kind, r: Parse, s: Bytes, chunks: seq<Bytes>)
    requires r.pos <= |s| && chunks != []
    requires r.status.NoEnoughData?
    requires CastHarmless(k, r.ctx, s + Concat(chunks), r.pos)
    ensures Feed(k, r, s, chunks) == ParseMsg(k, r.ctx, s + Concat(chunks), r.pos)
    decreases |chunks|
  {
    hide ParseMsg;
    hide CastHarmless;
    var s1 := s + chunks[0];
    var rest := chunks[1..];
    var r1 := ParseMsg(k, r.ctx, s1, r.pos);
    assert s1 + Concat(rest) == s + Concat(chunks);
    if rest == [] {
      assert s1 == s + Concat(chunks);
    } else if r1.status.NoEnoughData? {
      ParseResumes(k, r.ctx, s1, Concat(rest), r.pos);
      FeedFrom(k, r1, s1, rest);
    } else {
      VerdictIsFinal(k, r.ctx, s1, Concat(rest), r.pos);
    }
  }

  const START := Parse(NoEnoughData, NEW_CTX, 0)

  /** One call on the whole stream. */
  function OneCall(k: Kind, stream: Bytes): Parse { ParseMsg(k, NEW_CTX, stream, 0) }

  /** Chunking independence: for every stream and every way of cutting it, the status, the whole
      context (service, method, headers, body size, connection type, views) and the read index are
      those of one call on the whole stream. */
  lemma ChunkingIndependence(k: Kind, chunks: seq<Bytes>)
    requires chunks != [] && CastHarmless(k, NEW_CTX, Concat(chunks), 0)
    ensures Feed(k, START, [], chunks) == OneCall(k, Concat(chunks))
  {
    assert [] + Concat(chunks) == Concat(chunks);
    FeedFrom(k, START, [], chunks);
  }

  // ---------------------------------------------------------------- the condition is exact

  /** A line that lies inside a prefix is found there. */
  lemma FindLineShrinks(s: Bytes, t: Bytes, pos: nat, limit: nat)
    requires pos <= |s| && limit > 0
    requires var l := FindLine(s + t, pos, limit); l.LineAt? && l.end + 2 <= |s|
    ensures FindLine(s, pos, limit) == FindLine(s + t, pos, limit)
  {
    var e := FindLine(s + t, pos, limit).end;
    assert CrlfAt(s, e);
    if FindLine(s, pos, limit) != NoLine(NoEnoughData) {
      FindLineExtends(s, t, pos, limit);
    }
  }

  lemma {:induction false} HeadersShrink(c: Ctx, s: Bytes, t: Bytes, pos: nat)
    requires pos <= |s|
    requires var r := ParseHeaders(c, s + t, pos); r.status.PartSuccess? && r.pos <= |s|
    ensures ParseHeaders(c, s, pos) == ParseHeaders(c, s + t, pos)
    decreases |s| - pos
  {
    hide HeaderLine;
    hide FindLine;
    var e := FindLine(s + t, pos, MAX_HEADER_SIZE).end;
    FindLineShrinks(s, t, pos, MAX_HEADER_SIZE);
    if e != pos {
      assert (s + t)[pos..e] == s[pos..e];
      HeadersShrink(HeaderLine(c, s[pos..e]).ctx, s, t, e + 2);
    }
  }

  lemma StageShrinks(k: Kind, c: Ctx, s: Bytes, t: Bytes, pos: nat)
    requires pos <= |s| && c.stage < 2
    requires var r := Stage(k, c, s + t, pos); r.status.PartSuccess? && r.pos <= |s|
    ensures Stage(k, c, s, pos) == Stage(k, c, s + t, pos)
  {
    if c.stage == 0 {
      var e := FindLine(s + t, pos, MAX_HEADLINE_SIZE).end;
      FindLineShrinks(s, t, pos, MAX_HEADLINE_SIZE);
      assert (s + t)[pos..e] == s[pos..e];
    } else {
      HeadersShrink(c, s, t, pos);
    }
  }

  /** The body size is an `int`. */
  predicate SizeIsInt(c: Ctx) { -0x8000_0000 <= c.bodySize <= INT_MAX }

  lemma {:induction false} HeadersSize(c: Ctx, s: Bytes, pos: nat)
    requires pos <= |s| && SizeIsInt(c)
    ensures SizeIsInt(ParseHeaders(c, s, pos).ctx)
    decreases |s| - pos
  {
    hide FindLine;
    hide SplitHeader;
    var l := FindLine(s, pos, MAX_HEADER_SIZE);
    if l.LineAt? && l.end != pos && HeaderLine(c, s[pos..l.end]).status.PartSuccess? {
      HeadersSize(HeaderLine(c, s[pos..l.end]).ctx, s, l.end + 2);
    }
  }

  lemma StageSize(k: Kind, c: Ctx, s: Bytes, pos: nat)
    requires pos <= |s| && c.stage < 3 && SizeIsInt(c)
    ensures SizeIsInt(Stage(k, c, s, pos).ctx)
  {
    if c.stage == 1 {
      HeadersSize(c, s, pos);
    }
  }

  /** Where the body of a stream ends on which the cast does harm: cut there, the parser answers
      Success on the first piece, while it asks for more data on the whole stream. */
  lemma {:induction false} HarmfulCast(k: Kind, c: Ctx, s: Bytes, pos: nat) returns (cut: nat)
    requires pos <= |s| && SizeIsInt(c) && !CastHarmless(k, c, s, pos)
    ensures pos <= cut <= |s|
    ensures ParseMsg(k, c, s[..cut], pos).status.Success?
    ensures ParseMsg(k, c, s, pos).status.NoEnoughData?
    decreases 3 - c.stage
  {
    if c.stage == 2 {
      cut := pos + Max(c.bodySize, 0);
    } else {
      hide Stage;
      StageSize(k, c, s, pos);
      var r := Stage(k, c, s, pos);
      cut := HarmfulCast(k, r.ctx.(stage := c.stage + 1), s, r.pos);
      assert s[..cut] + s[cut..] == s;
      StageShrinks(k, c, s[..cut], s[cut..], pos);
    }
  }

  /** All ways of cutting a stream give one answer if and only if the cast is harmless on it. */
  lemma ChunkingExactly(k: Kind, stream: Bytes)
    ensures CastHarmless(k, NEW_CTX, stream, 0) <==>
            forall chunks: seq<Bytes> :: chunks != [] && Concat(chunks) == stream ==>
              Feed(k, START, [], chunks) == OneCall(k, stream)
  {
    hide ParseMsg;
    hide CastHarmless;
    if CastHarmless(k, NEW_CTX, stream, 0) {
      forall chunks: seq<Bytes> | chunks != [] && Concat(chunks) == stream
        ensures Feed(k, START, [], chunks) == OneCall(k, stream)
      {
        ChunkingIndependence(k, chunks);
      }
    } else {
      var cut := HarmfulCast(k, NEW_CTX, stream, 0);
      var chunks := [stream[..cut], stream[cut..]];
      assert chunks[1..] == [stream[cut..]] && chunks[1..][1..] == [];
      assert Concat(chunks[1..]) == stream[cut..] + Concat([]);
      assert Concat(chunks) == stream;
      assert [] + chunks[0] == stream[..cut];
      assert Feed(k, START, [], chunks) == ParseMsg(k, NEW_CTX, stream[..cut], 0);
    }
  }

  /** The harm is real: a response with an empty body, and 2^31 bytes behind it. */
  lemma HarmIsReal(more: Bytes)
    requires |more| == 0x8000_0000
    ensures !CastHarmless(Response, NEW_CTX, "\r\n" + "\r\n" + more, 0)
  {
    var s := "\r\n" + "\r\n" + more;
    assert s[0] == '\r' && s[1] == '\n' && s[2] == '\r' && s[3] == '\n';
    assert CrlfAt(s, 0) && CrlfAt(s, 2);
    assert FindLine(s, 0, MAX_HEADLINE_SIZE) == LineAt(0);
    assert FindLine(s, 2, MAX_HEADER_SIZE) == LineAt(2);
  }
}
