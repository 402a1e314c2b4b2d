/** What a whole HTTP request means: exactly which streams are accepted, and what is stored for them. */
module HttpRequest {
  import opened Bytes
  import opened Protocol
  import opened HttpSpec
  import opened HttpMeaning
  import Decimal
  import R = HttpRoundTrip
  import F = HttpFailure

  /** A stream as a request: first line, header lines, and what follows the empty line. */
  datatype Message = Message(m: nat, url: Bytes, version: Bytes, lines: seq<Bytes>, rest: Bytes) {
    function FirstLine(): Bytes
      requires m < |METHODS|
    {
      METHODS[m] + " " + url + " " + version
    }

    /** Where the rest begins. */
    function BodyAt(): nat
      requires m < |METHODS|
    {
      |FirstLine()| + 2 + |Block(lines)|
    }

    function Stream(): Bytes
      requires m < |METHODS|
    {
      FirstLine() + "\r\n" + (Block(lines) + rest)
    }

    /** The size of the body: the first non-empty Content-Length, or nothing. */
    function BodySize(): Decimal.StoiResult
    {
      if FirstValue(lines, "Content-Length") == [] then Decimal.Number(0)
      else Decimal.Stoi(FirstValue(lines, "Content-Length"))
    }

    /** What can be checked on the parts. */
    predicate WellFormed()
    {
      && m < |METHODS| && Shape(FirstLine(), m, url, version)
      && NoCrlf(FirstLine()) && |FirstLine()| + 2 <= MAX_HEADLINE_SIZE && Lines(lines)
      && F.Sound(lines) == |lines|
      && BodySize().Number? && BodySize().value <= AsInt32(|rest|)
    }
  }

  /** The context stored for a request. */
  ghost predicate Stored(q: Message, c: Ctx)
    requires q.WellFormed()
  {
    && c.httpMethod == q.m && Names(q.url, c.service, c.methodName)
    && Views(c, |METHODS[q.m]| + 1, q.url, q.version, 0, |q.FirstLine()|)
    && FirstWins(q.lines, c.headers)
    && c.bodySize == q.BodySize().value
    && (c.connType.Single? <==> FirstValue(q.lines, "Connection") == "Keep-Alive") && !c.connType.Pool?
    && c.payloadView == View(q.BodyAt(), q.BodyAt() + c.bodySize)
  }

  /** The result for a request: accepted, with the read index in front of the body. */
  ghost predicate Accepts(q: Message, r: Parse)
    requires q.WellFormed()
  {
    r.status.Success? && r.pos == q.BodyAt() && Stored(q, r.ctx)
  }

  // ---------------------------------------------------------------- every request is accepted

  lemma HeadersAccepted(c: Ctx, lines: seq<Bytes>)
    requires c.headers == map[] && c.bodySize == 0 && c.connType.Short? && F.Sound(lines) == |lines|
    requires FirstValue(lines, "Content-Length") != [] ==>
               Decimal.Stoi(FirstValue(lines, "Content-Length")).Number?
    ensures Fold(c, lines).status.PartSuccess? && Holds(c, lines, Fold(c, lines).ctx)
  {
    F.FoldEnds(c, lines);
    assert lines[..|lines|] == lines;
    hide Fold;
    FoldHolds(c, [], c, lines);
    assert [] + lines == lines;
  }

  /** The body, once the headers are parsed. */
  lemma BodyAccepted(c: Ctx, s: Bytes, pos: nat)
    requires c.stage == 2 && pos <= |s|
    ensures var r := ParseMsg(Request, c, s, pos);
            if c.bodySize <= AsInt32(|s| - pos)
            then r == Parse(Success, c.(stage := 3, payloadView := View(pos, pos + c.bodySize)), pos)
            else r == Parse(NoEnoughData, c, pos)
  {
    var r := ParseBody(c, s, pos);
    if r.status.PartSuccess? {
      assert ParseMsg(Request, r.ctx.(stage := 3), s, pos) == Parse(Success, r.ctx.(stage := 3), pos);
    }
  }

  /** The headers, behind an accepted first line. */
  lemma BlockAccepted(q: Message, c: Ctx)
    requires q.WellFormed() && c.headers == map[] && c.bodySize == 0 && c.connType.Short?
    ensures var h := ParseHeaders(c, q.Stream(), |q.FirstLine()| + 2);
            && h.status.PartSuccess? && h.pos == q.BodyAt() && Holds(c, q.lines, h.ctx)
  {
    hide ParseHeaders;
    hide Fold;
    hide Holds;
    hide Shape;
    hide NoCrlf;
    R.FrontOf(q.FirstLine(), Block(q.lines) + q.rest);
    hide Block;
    HeadersAccepted(c, q.lines);
    HeadersOfLines(c, q.lines, q.Stream(), |q.FirstLine()| + 2);
  }

  /** The headers and the body. */
  lemma RestAccepted(q: Message, c: Ctx)
    requires q.WellFormed()
    requires c.stage == 1 && c.headers == map[] && c.bodySize == 0 && c.connType.Short?
    requires c.httpMethod == q.m && Names(q.url, c.service, c.methodName)
    requires Views(c, |METHODS[q.m]| + 1, q.url, q.version, 0, |q.FirstLine()|)
    ensures Accepts(q, ParseMsg(Request, c, q.Stream(), |q.FirstLine()| + 2))
  {
    hide ParseMsg;
    hide ParseHeaders;
    var s, pos := q.Stream(), |q.FirstLine()| + 2;
    BlockAccepted(q, c);
    R.AfterHeaders(Request, c, s, pos);
    var h := ParseHeaders(c, s, pos);
    BodyAccepted(h.ctx.(stage := 2), s, q.BodyAt());
    StoredAfter(q, c, h.ctx);
    StreamLength(q);
    hide Stored;
    hide Holds;
    hide Names;
    hide Views;
    hide Message.WellFormed;
    hide Message.Stream;
    hide Message.BodyAt;
  }

  lemma StreamLength(q: Message)
    requires q.WellFormed()
    ensures |q.Stream()| == q.BodyAt() + |q.rest| && q.BodySize().value <= AsInt32(|q.rest|)
  {
    hide Shape;
    hide NoCrlf;
    hide Block;
  }

  lemma StoredAfter(q: Message, c: Ctx, h: Ctx)
    requires q.WellFormed() && Holds(c, q.lines, h)
    requires c.bodySize == 0 && c.connType.Short?
    requires c.httpMethod == q.m && Names(q.url, c.service, c.methodName)
    requires Views(c, |METHODS[q.m]| + 1, q.url, q.version, 0, |q.FirstLine()|)
    ensures h.bodySize == q.BodySize().value
    ensures Stored(q, h.(stage := 3, payloadView := View(q.BodyAt(), q.BodyAt() + h.bodySize)))
  {
    hide FirstWins;
    hide FirstValue;
    hide Decimal.Stoi;
    hide Shape;
    hide NoCrlf;
    hide Block;
    hide F.Sound;
  }

  /** Every well-formed request is accepted, with everything stored that it says. */
  lemma RequestAccepted(q: Message)
    requires q.WellFormed()
    ensures Accepts(q, ParseMsg(Request, NEW_CTX, q.Stream(), 0))
  {
    var line := q.FirstLine();
    var s := q.Stream();
    FirstLineStored(q);
    R.FrontOf(line, Block(q.lines) + q.rest);
    LineFound(s, 0, MAX_HEADLINE_SIZE, line);
    hide FindLine;
    R.AfterFirstLine(Request, NEW_CTX, s, line);
    hide ParseMsg;
    hide RequestLine;
    RestAccepted(q, RequestLine(NEW_CTX, line, 0).ctx.(stage := 1));
  }

  lemma FirstLineStored(q: Message)
    requires q.WellFormed()
    ensures var r := RequestLine(NEW_CTX, q.FirstLine(), 0);
            && r.status.PartSuccess? && r.pos == |q.FirstLine()| + 2
            && r.ctx.headers == map[] && r.ctx.bodySize == 0 && r.ctx.connType.Short?
            && r.ctx.httpMethod == q.m && Names(q.url, r.ctx.service, r.ctx.methodName)
            && Views(r.ctx, |METHODS[q.m]| + 1, q.url, q.version, 0, |q.FirstLine()|)
  {
    var line := q.FirstLine();
    RequestLineComplete(NEW_CTX, line, 0, q.m, q.url, q.version);
    R.LinePos(NEW_CTX, line, 0);
    var url, version := RequestLineSound(NEW_CTX, line, 0);
    hide RequestLine;
    SameShape(line, q.m, q.url, q.version, url, version);
  }

  /** A line has one url and one version. */
  lemma SameShape(line: Bytes, m: nat, url: Bytes, version: Bytes, url2: Bytes, version2: Bytes)
    requires Shape(line, m, url, version) && Shape(line, m, url2, version2)
    ensures url == url2 && version == version2
  {
    var o := |METHODS[m]|;
    assert line[o..] == " " + url + " " + version;
    assert line[o..] == " " + url2 + " " + version2;
    TargetBlanks(line, o, url, version);
    TargetBlanks(line, o, url2, version2);
    assert |url| == |url2|;
    assert line[o + 1..][|url| + 1..] == version;
    assert line[o + 1..][|url2| + 1..] == version2;
  }

  // ---------------------------------------------------------------- nothing else is accepted

  /** The first line of whatever is accepted. */
  lemma StartMeaning(s: Bytes) returns (line: Bytes, m: nat, url: Bytes, version: Bytes, c: Ctx)
    requires ParseMsg(Request, NEW_CTX, s, 0).status.Success?
    ensures |line| + 2 <= MAX_HEADLINE_SIZE && NoCrlf(line) && m < |METHODS| && Shape(line, m, url, version)
    ensures |line| + 2 <= |s| && s[..|line| + 2] == line + "\r\n"
    ensures c.stage == 1 && c.headers == map[] && c.bodySize == 0
    ensures ParseMsg(Request, NEW_CTX, s, 0) == ParseMsg(Request, c, s, |line| + 2)
  {
    var l := FindLine(s, 0, MAX_HEADLINE_SIZE);
    assert l.LineAt?;
    FoundLine(s, 0, MAX_HEADLINE_SIZE);
    assert s[0..l.end] == s[..l.end] && s[0..l.end + 2] == s[..l.end + 2];
    line := s[..l.end];
    R.AfterFirstLine(Request, NEW_CTX, s, line);
    hide FindLine;
    hide ParseMsg;
    hide RequestLine;
    hide NoCrlf;
    F.FirstLineDecides(line);
    F.AcceptedKeeps(line);
    m, url, version := FirstMeaning(line);
    c := RequestLine(NEW_CTX, line, 0).ctx.(stage := 1);
  }

  lemma FirstMeaning(line: Bytes) returns (m: nat, url: Bytes, version: Bytes)
    requires RequestLine(NEW_CTX, line, 0).status.PartSuccess?
    ensures m < |METHODS| && Shape(line, m, url, version)
  {
    url, version := RequestLineSound(NEW_CTX, line, 0);
    m := RequestLine(NEW_CTX, line, 0).ctx.httpMethod;
  }

  /** Whatever is accepted is a well-formed request. */
  lemma RequestMeaning(s: Bytes) returns (q: Message)
    requires ParseMsg(Request, NEW_CTX, s, 0).status.Success?
    ensures q.WellFormed() && s == q.Stream() && Accepts(q, ParseMsg(Request, NEW_CTX, s, 0))
  {
    hide ParseMsg;
    var line, m, url, version, c := StartMeaning(s);
    var lines, rest := RestMeaning(c, s, |line| + 2);
    q := Message(m, url, version, lines, rest);
    assert q.FirstLine() == line;
    assert s == s[..|line| + 2] + s[|line| + 2..];
    RequestAccepted(q);
    hide Accepts;
    hide Block;
    hide Shape;
    hide F.Sound;
    hide FirstValue;
    hide Decimal.Stoi;
  }

  /** The headers of whatever is accepted. */
  lemma BlockMeaning(c: Ctx, s: Bytes, pos: nat) returns (lines: seq<Bytes>)
    requires c.headers == map[] && c.bodySize == 0 && pos <= |s| && ParseHeaders(c, s, pos).status.PartSuccess?
    ensures var h := ParseHeaders(c, s, pos);
            && s[pos..h.pos] == Block(lines) && Lines(lines) && F.Sound(lines) == |lines|
            && (var v := FirstValue(lines, "Content-Length");
                if v == [] then h.ctx.bodySize == 0 else Decimal.Stoi(v) == Decimal.Number(h.ctx.bodySize))
  {
    hide ParseHeaders;
    lines := LinesOfHeaders(c, s, pos);
    F.FoldEnds(c, lines);
    hide Fold;
    hide F.Sound;
    FoldHolds(c, [], c, lines);
    assert [] + lines == lines;
    hide FirstWins;
    hide Decimal.Stoi;
  }

  lemma RestMeaning(c: Ctx, s: Bytes, pos: nat) returns (lines: seq<Bytes>, rest: Bytes)
    requires c.stage == 1 && c.headers == map[] && c.bodySize == 0 && pos <= |s|
    requires ParseMsg(Request, c, s, pos).status.Success?
    ensures s[pos..] == Block(lines) + rest && Lines(lines) && F.Sound(lines) == |lines|
    ensures var v := FirstValue(lines, "Content-Length");
            if v == [] then 0 <= AsInt32(|rest|)
            else Decimal.Stoi(v).Number? && Decimal.Stoi(v).value <= AsInt32(|rest|)
  {
    hide ParseMsg;
    hide ParseHeaders;
    R.AfterHeaders(Request, c, s, pos);
    HeadersAnswer(c, s, pos);
    var h := ParseHeaders(c, s, pos);
    lines := BlockMeaning(c, s, pos);
    rest := s[h.pos..];
    BodyAccepted(h.ctx.(stage := 2), s, h.pos);
    hide Block;
    hide F.Sound;
    hide FirstValue;
    hide Decimal.Stoi;
    assert s[pos..] == s[pos..h.pos] + rest;
  }

  /** Exactly the well-formed requests are accepted. */
  lemma AcceptedExactly(s: Bytes)
    ensures ParseMsg(Request, NEW_CTX, s, 0).status.Success? <==>
            exists q: Message :: q.WellFormed() && s == q.Stream()
  {
    if ParseMsg(Request, NEW_CTX, s, 0).status.Success? {
      var q := RequestMeaning(s);
    }
    hide ParseMsg;
    if exists q: Message :: q.WellFormed() && s == q.Stream() {
      var q: Message :| q.WellFormed() && s == q.Stream();
      RequestAccepted(q);
    }
  }
}
