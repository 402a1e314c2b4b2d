/** The requests that end the server: exceptions out of reading a Content-Length, and exactly when.

`std::stoi` (protocols/http.cpp:152) throws on text that is not a number of type `int`, and a negative
length makes a payload view that ends before it begins, out of which `BufferView::str` throws
(net/pb_server.cpp:176).  Nothing between these calls and `main` catches. */
module HttpFailure {
  import opened Bytes
  import opened Protocol
  import opened HttpSpec
  import opened HttpMeaning
  import Decimal
  import R = HttpRoundTrip

  /** The parser throws, or the server does when it takes the payload of what was parsed. */
  predicate Throws(r: Parse)
  {
    r.status.Threw? || (r.status.Success? && r.ctx.payloadView.end < r.ctx.payloadView.begin)
  }

  /** The number of lines before the first one without a name and a colon. */
  function Sound(lines: seq<Bytes>): (r: nat)
    ensures r <= |lines|
  {
    if lines == [] || SplitHeader(lines[0]).Malformed? then 0 else 1 + Sound(lines[1..])
  }

  const LENGTH: Bytes := "Content-Length"

  /** The value that decides: the first that is not empty, in front of any malformed line. */
  function LengthText(lines: seq<Bytes>): Bytes { FirstValue(lines[..Sound(lines)], LENGTH) }

  lemma FirstOfSound(lines: seq<Bytes>)
    requires lines != [] && SplitHeader(lines[0]).Header?
    ensures var h := SplitHeader(lines[0]);
            LengthText(lines) == if h.key == LENGTH && h.value != [] then h.value else LengthText(lines[1..])
  {
    hide SplitHeader;
    var k := Sound(lines);
    assert lines[..k][0] == lines[0];
    assert lines[..k][1..] == lines[1..][..k - 1];
  }

  /** How the header loop ends, by its first length and its first malformed line. */
  lemma {:induction false} FoldEnds(c: Ctx, lines: seq<Bytes>)
    ensures Fold(c, lines).status ==
            if LENGTH !in c.headers && LengthText(lines) != [] && Decimal.Stoi(LengthText(lines)).Threw? then Threw
            else if Sound(lines) == |lines| then PartSuccess else Error
    decreases |lines|
  {
    if lines == [] {
      assert lines[..0] == [];
    } else if SplitHeader(lines[0]).Malformed? {
      assert lines[..0] == [];
      assert HeaderLine(c, lines[0]).status.Error?;
    } else {
      FirstOfSound(lines);
      var h := HeaderLine(c, lines[0]);
      LineEffect(c, lines[0]);
      hide SplitHeader;
      hide HeaderLine;
      hide LengthText;
      hide Decimal.Stoi;
      if h.status.PartSuccess? {
        FoldEnds(h.ctx, lines[1..]);
      }
    }
  }

  lemma LineEffect(c: Ctx, line: Bytes)
    requires SplitHeader(line).Header?
    ensures var h, r := SplitHeader(line), HeaderLine(c, line);
            && (r.status.Threw? <==>
                  h.key == LENGTH && h.value != [] && LENGTH !in c.headers && Decimal.Stoi(h.value).Threw?)
            && (!r.status.Threw? ==> r.status.PartSuccess?)
            && (r.status.PartSuccess? ==>
                  (LENGTH in r.ctx.headers <==> LENGTH in c.headers || (h.key == LENGTH && h.value != [])))
  {
    hide SplitHeader;
    hide Decimal.Stoi;
  }

  /** A length that no request may carry. */
  predicate Fatal(lines: seq<Bytes>, body: Bytes)
  {
    var v := LengthText(lines);
    v != [] &&
    match Decimal.Stoi(v)
    case Threw => true
    case Number(n) => n < 0 && Sound(lines) == |lines| && n <= AsInt32(|body|)
  }

  /** The headers and the body of a request, behind its first line. */
  lemma RestThrows(c: Ctx, lines: seq<Bytes>, body: Bytes, s: Bytes, pos: nat)
    requires c.stage == 1 && c.headers == map[] && c.bodySize == 0 && Lines(lines)
    requires pos <= |s| && s[pos..] == Block(lines) + body
    ensures Throws(ParseMsg(Request, c, s, pos)) <==> Fatal(lines, body)
  {
    hide ParseMsg;
    hide ParseHeaders;
    hide Fold;
    hide Block;
    hide SplitHeader;
    hide LengthText;
    hide Decimal.Stoi;
    var f := Fold(c, lines);
    HeadersOfLines(c, lines, s, pos);
    FoldEnds(c, lines);
    R.AfterHeaders(Request, c, s, pos);
    if f.status.PartSuccess? {
      FoldedLength(c, lines);
      var start := pos + |Block(lines)|;
      assert |s| - start == |body|;
      BodyThrows(f.ctx.(stage := 2), s, start);
    }
  }

  lemma FoldedLength(c: Ctx, lines: seq<Bytes>)
    requires c.headers == map[] && c.bodySize == 0 && Fold(c, lines).status.PartSuccess?
    ensures var v, n := LengthText(lines), Fold(c, lines).ctx.bodySize;
            if v == [] then n == 0 else Decimal.Stoi(v) == Decimal.Number(n)
  {
    FoldEnds(c, lines);
    FoldHolds(c, [], c, lines);
    hide Fold;
    hide FirstValue;
    hide Decimal.Stoi;
    assert [] + lines == lines;
    assert lines[..|lines|] == lines;
  }

  lemma BodyThrows(c: Ctx, s: Bytes, pos: nat)
    requires c.stage == 2 && pos <= |s|
    ensures Throws(ParseMsg(Request, c, s, pos)) <==> c.bodySize < 0 && c.bodySize <= AsInt32(|s| - pos)
  {
    var r := ParseBody(c, s, pos);
    if r.status.PartSuccess? {
      assert ParseMsg(Request, r.ctx.(stage := 3), s, pos) == Parse(Success, r.ctx.(stage := 3), pos);
    }
  }

  /** Exactly which requests with a finished header block end the server, for every well-formed first
      line, every header block, malformed lines included, and every body: those whose first non-empty
      Content-Length in front of any malformed line is no `int`, or is negative in a block without
      malformed lines (and not above the body's length cast to `int`, which is negative only from 2^31
      bytes on). */
  lemma LengthDecides(line: Bytes, m: nat, url: Bytes, version: Bytes, lines: seq<Bytes>, body: Bytes)
    requires Shape(line, m, url, version) && NoCrlf(line) && |line| + 2 <= MAX_HEADLINE_SIZE && Lines(lines)
    ensures Throws(ParseMsg(Request, NEW_CTX, line + "\r\n" + (Block(lines) + body), 0)) <==> Fatal(lines, body)
  {
    var rest := Block(lines) + body;
    var s := line + "\r\n" + rest;
    assert s[0..] == s && s[..|line|] == line;
    LineFound(s, 0, MAX_HEADLINE_SIZE, line);
    R.AfterFirstLine(Request, NEW_CTX, s, line);
    RequestLineComplete(NEW_CTX, line, 0, m, url, version);
    R.LinePos(NEW_CTX, line, 0);
    var r := RequestLine(NEW_CTX, line, 0);
    assert s[r.pos..] == rest;
    hide ParseMsg;
    hide RequestLine;
    hide Fatal;
    hide Block;
    RestThrows(r.ctx.(stage := 1), lines, body, s, r.pos);
  }

  // ---------------------------------------------------------------- every stream

  /** The lines, each with CRLF. */
  function Joined(lines: seq<Bytes>): Bytes
  {
    if lines == [] then [] else lines[0] + "\r\n" + Joined(lines[1..])
  }

  /** What follows a first line: a header block and a body; or lines and a rest in which no line end
      is found, because it has not come or is too far. */
  datatype Front = Complete(lines: seq<Bytes>, body: Bytes) | Open(lines: seq<Bytes>, tail: Bytes)

  function FrontOf(s: Bytes): Front
  {
    match FindLine(s, 0, MAX_HEADER_SIZE)
    case NoLine(_) => Open([], s)
    case LineAt(e) => if e == 0 then Complete([], s[2..]) else With(s[..e], FrontOf(s[e + 2..]))
  }

  function With(line: Bytes, f: Front): Front
  {
    match f
    case Complete(lines, body) => Complete([line] + lines, body)
    case Open(lines, tail) => Open([line] + lines, tail)
  }

  /** The stream is its front. */
  predicate IsFront(s: Bytes, f: Front)
  {
    && Lines(f.lines)
    && match f
       case Complete(lines, body) => s == Block(lines) + body
       case Open(lines, tail) => s == Joined(lines) + tail && FindLine(tail, 0, MAX_HEADER_SIZE).NoLine?
  }

  lemma {:induction false} FrontIsFront(s: Bytes)
    ensures IsFront(s, FrontOf(s))
  {
    hide IsFront;
    hide FindLine;
    var l := FindLine(s, 0, MAX_HEADER_SIZE);
    if l.NoLine? {
      NoFront(s);
    } else {
      FoundLine(s, 0, MAX_HEADER_SIZE);
      assert s[0..l.end] == s[..l.end] && s[0..l.end + 2] == s[..l.end + 2];
      if l.end == 0 {
        EndOfFront(s);
      } else {
        FrontIsFront(s[l.end + 2..]);
        WithLine(s[..l.end], s[l.end + 2..], FrontOf(s[l.end + 2..]));
        assert s == s[..l.end + 2] + s[l.end + 2..];
      }
    }
  }

  lemma NoFront(s: Bytes)
    requires FindLine(s, 0, MAX_HEADER_SIZE).NoLine?
    ensures IsFront(s, Open([], s))
  {
    assert [] + s == s;
  }

  lemma EndOfFront(s: Bytes)
    requires "\r\n" <= s
    ensures IsFront(s, Complete([], s[2..]))
  {
  }

  lemma WithLine(line: Bytes, s: Bytes, f: Front)
    requires IsFront(s, f) && Line(line)
    ensures IsFront(line + "\r\n" + s, With(line, f))
  {
    assert ([line] + f.lines)[1..] == f.lines;
    if f.Complete? {
      assert line + "\r\n" + (Block(f.lines) + f.body) == line + "\r\n" + Block(f.lines) + f.body;
    } else {
      assert line + "\r\n" + (Joined(f.lines) + f.tail) == line + "\r\n" + Joined(f.lines) + f.tail;
    }
  }

  lemma NoLineShifts(s: Bytes, pos: nat)
    requires pos <= |s| && FindLine(s[pos..], 0, MAX_HEADER_SIZE).NoLine?
    ensures FindLine(s, pos, MAX_HEADER_SIZE).NoLine?
  {
    var size := Min(|s| - pos, MAX_HEADER_SIZE);
    if size > 0 {
      forall i | pos <= i && i + 2 <= pos + size ensures !CrlfAt(s, i) {
        assert !CrlfAt(s[pos..], i - pos);
      }
    }
  }

  /** Lines without the end of their block are parsed as far as their fold goes. */
  lemma {:induction false} HeadersOfOpen(c: Ctx, lines: seq<Bytes>, tail: Bytes, s: Bytes, pos: nat)
    requires Lines(lines) && pos <= |s| && s[pos..] == Joined(lines) + tail
    requires FindLine(tail, 0, MAX_HEADER_SIZE).NoLine?
    ensures var f, r := Fold(c, lines), ParseHeaders(c, s, pos);
            if f.status.PartSuccess? then r.status in {NoEnoughData, Error} else r.status == f.status
    decreases |lines|
  {
    hide HeaderLine;
    hide FindLine;
    hide NoCrlf;
    HeadersTurn(c, s, pos);
    hide ParseHeaders;
    if lines == [] {
      assert [] + tail == tail;
      NoLineShifts(s, pos);
      NoLineStatus(s, pos);
    } else {
      OpenStep(lines, tail, s, pos);
      hide Joined;
      var h := HeaderLine(c, lines[0]);
      if h.status.PartSuccess? {
        HeadersOfOpen(h.ctx, lines[1..], tail, s, pos + |lines[0]| + 2);
      }
    }
  }

  /** The first of the lines is found, and the others follow it. */
  lemma OpenStep(lines: seq<Bytes>, tail: Bytes, s: Bytes, pos: nat)
    requires lines != [] && Line(lines[0]) && pos <= |s| && s[pos..] == Joined(lines) + tail
    ensures var line := lines[0];
            var next := pos + |line| + 2;
            && next <= |s| && s[next..] == Joined(lines[1..]) + tail
            && FindLine(s, pos, MAX_HEADER_SIZE) == LineAt(pos + |line|) && s[pos..pos + |line|] == line
  {
    var line, rest := lines[0], Joined(lines[1..]);
    assert s[pos..] == line + "\r\n" + (rest + tail);
    LineFound(s, pos, MAX_HEADER_SIZE, line);
  }

  lemma NoLineStatus(s: Bytes, pos: nat)
    requires pos <= |s| && FindLine(s, pos, MAX_HEADER_SIZE).NoLine?
    ensures FindLine(s, pos, MAX_HEADER_SIZE).status in {NoEnoughData, Error}
  {
  }

  /** The headers of a request whose block has not ended. */
  lemma OpenThrows(c: Ctx, lines: seq<Bytes>, tail: Bytes, s: Bytes, pos: nat)
    requires c.stage == 1 && c.headers == map[] && Lines(lines)
    requires pos <= |s| && s[pos..] == Joined(lines) + tail && FindLine(tail, 0, MAX_HEADER_SIZE).NoLine?
    ensures Throws(ParseMsg(Request, c, s, pos)) <==> BadNumber(lines)
  {
    hide ParseMsg;
    hide ParseHeaders;
    hide Fold;
    hide Joined;
    hide SplitHeader;
    hide LengthText;
    hide Decimal.Stoi;
    hide FindLine;
    HeadersOfOpen(c, lines, tail, s, pos);
    FoldEnds(c, lines);
    R.AfterHeaders(Request, c, s, pos);
  }

  /** The deciding length is no number of type `int`. */
  predicate BadNumber(lines: seq<Bytes>)
  {
    LengthText(lines) != [] && Decimal.Stoi(LengthText(lines)).Threw?
  }

  /** The bytes behind an accepted first line that end the server. */
  predicate FatalFront(rest: Bytes)
  {
    match FrontOf(rest)
    case Complete(lines, body) => Fatal(lines, body)
    case Open(lines, _) => BadNumber(lines)
  }

  /** METHOD SP url SP version, for some method tried, some url and some version. */
  ghost predicate Accepted(line: Bytes) { exists m: nat, url, version :: Shape(line, m, url, version) }

  /** The streams that end the server. */
  ghost predicate FatalStream(s: Bytes)
  {
    match FindLine(s, 0, MAX_HEADLINE_SIZE)
    case NoLine(_) => false
    case LineAt(e) => Accepted(s[..e]) && FatalFront(s[e + 2..])
  }

  lemma FirstLineDecides(line: Bytes)
    ensures RequestLine(NEW_CTX, line, 0).status.PartSuccess? <==> Accepted(line)
    ensures RequestLine(NEW_CTX, line, 0).status in {PartSuccess, Error}
  {
    if RequestLine(NEW_CTX, line, 0).status.PartSuccess? {
      var url, version := RequestLineSound(NEW_CTX, line, 0);
      assert Shape(line, RequestLine(NEW_CTX, line, 0).ctx.httpMethod, url, version);
    }
    hide RequestLine;
    if Accepted(line) {
      var m: nat, url, version :| Shape(line, m, url, version);
      RequestLineComplete(NEW_CTX, line, 0, m, url, version);
    }
  }

  lemma AcceptedKeeps(line: Bytes)
    requires RequestLine(NEW_CTX, line, 0).status.PartSuccess?
    ensures var r := RequestLine(NEW_CTX, line, 0);
            r.pos == |line| + 2 && r.ctx.headers == map[] && r.ctx.bodySize == 0
  {
    R.LinePos(NEW_CTX, line, 0);
  }

  lemma FrontThrows(c: Ctx, s: Bytes, pos: nat)
    requires c.stage == 1 && c.headers == map[] && c.bodySize == 0 && pos <= |s|
    ensures Throws(ParseMsg(Request, c, s, pos)) <==> FatalFront(s[pos..])
  {
    hide ParseMsg;
    hide Throws;
    hide Fatal;
    hide BadNumber;
    hide Block;
    hide Joined;
    hide FindLine;
    FrontIsFront(s[pos..]);
    hide FrontOf;
    match FrontOf(s[pos..])
    case Complete(lines, body) => RestThrows(c, lines, body, s, pos);
    case Open(lines, tail) => OpenThrows(c, lines, tail, s, pos);
  }

  /** Exactly which streams end the server, finished or not: those with an accepted first line whose
      header lines so far, up to the first malformed one, give as their first non-empty Content-Length
      something that is no `int`, and those whose block is complete and well formed and gives a negative
      one (see Fatal). */
  lemma StreamDecides(s: Bytes)
    ensures Throws(ParseMsg(Request, NEW_CTX, s, 0)) <==> FatalStream(s)
  {
    hide FatalFront;
    hide RequestLine;
    hide Accepted;
    var l := FindLine(s, 0, MAX_HEADLINE_SIZE);
    if l.LineAt? {
      var line := s[..l.end];
      FirstLineDecides(line);
      hide FindLine;
      R.AfterFirstLine(Request, NEW_CTX, s, line);
      hide ParseMsg;
      var r := RequestLine(NEW_CTX, line, 0);
      if r.status.PartSuccess? {
        AcceptedKeeps(line);
        FrontThrows(r.ctx.(stage := 1), s, r.pos);
      }
    }
  }

  /** One header line with a bad number, and nothing behind it. */
  lemma OpenIsFatal(line: Bytes, m: nat, url: Bytes, version: Bytes, header: Bytes)
    requires Shape(line, m, url, version) && NoCrlf(line) && |line| + 2 <= MAX_HEADLINE_SIZE
    requires Line(header) && BadNumber([header])
    ensures FatalStream(line + "\r\n" + (header + "\r\n"))
  {
    hide BadNumber;
    hide FrontOf;
    hide FindLine;
    hide NoCrlf;
    var rest := header + "\r\n";
    var s := line + "\r\n" + rest;
    R.FrontOf(line, rest);
    LineFound(s, 0, MAX_HEADLINE_SIZE, line);
    assert Accepted(line);
    FrontOfOne(header);
    hide Shape;
    hide Accepted;
  }

  lemma FrontOfOne(header: Bytes)
    requires Line(header)
    ensures FrontOf(header + "\r\n") == Open([header], [])
  {
    var rest := header + "\r\n";
    assert rest[0..] == rest && rest[..|header|] == header && rest[|header| + 2..] == [];
    LineFound(rest, 0, MAX_HEADER_SIZE, header);
    hide NoCrlf;
    assert FindLine([], 0, MAX_HEADER_SIZE) == NoLine(NoEnoughData);
    assert FrontOf([]) == Open([], []);
    hide FindLine;
    assert [header] + [] == [header];
  }

  /** A length that is not a number ends the server, and so does a negative one. */
  lemma LengthsAreFatal(value: Bytes, body: Bytes)
    requires value == "x" || (value == "-1" && |body| <= INT_MAX)
    ensures Fatal([R.LineOf(LENGTH, value)], body)
    ensures value == "x" ==> BadNumber([R.LineOf(LENGTH, value)])
  {
    var lines := [R.LineOf(LENGTH, value)];
    R.SplitOfLine(LENGTH, value);
    hide SplitHeader;
    hide R.LineOf;
    FirstOfSound(lines);
    assert lines[1..] == [] && Sound([]) == 0;
    assert Sound(lines) == 1;
    StoiOfBad(value);
  }

  lemma StoiOfBad(value: Bytes)
    requires value == "x" || value == "-1"
    ensures Decimal.Stoi(value) == if value == "x" then Decimal.Threw else Decimal.Number(-1)
  {
    if value == "-1" {
      assert value[1..] == "1";
      assert Decimal.DigitsLen("1") == 1;
      assert "1"[..1] == "1" && "1"[..0] == [];
      assert Decimal.Value("1") == 1;
    }
  }
}
