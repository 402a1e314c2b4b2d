/** Parsing undoes packing, for requests and responses, and exactly when. */
module HttpRoundTrip {
  import opened Bytes
  import opened Protocol
  import opened HttpSpec
  import opened HttpMeaning
  import Decimal

  // ---------------------------------------------------------------- the packers

  /** `key: value` */
  function LineOf(key: Bytes, value: Bytes): Bytes { key + ": " + value }

  function ConnLine(t: ConnType): Bytes
  {
    LineOf("Connection", if t.Short? then "Close" else "Keep-Alive") + "\r\n"
  }

  const TYPE_LINE: Bytes := LineOf("Content-Type", "application/data") + "\r\n"

  /** The header lines that both packers print, with the empty line. */
  function PackedHeaders(t: ConnType, n: nat): Bytes
  {
    ConnLine(t) + TYPE_LINE + ("Content-Length" + ": ") + Decimal.Dec(n) + ("\r\n" + "\r\n")
  }

  /** The request line, without its CRLF. */
  function RequestText(service: Bytes, methodName: Bytes): Bytes
  {
    "POST " + ("/" + service + "/" + methodName) + " " + "HTTP/1.1"
  }

  /** `pack_request`, the data lane. */
  function RequestHead(service: Bytes, methodName: Bytes, t: ConnType, n: nat): Bytes
  {
    RequestText(service, methodName) + "\r\n" + PackedHeaders(t, n)
  }

  /** `pack_response`, the data lane. */
  function ResponseHead(t: ConnType, n: nat): Bytes
  {
    "HTTP/1.1 200 OK" + "\r\n" + PackedHeaders(t, n)
  }

  /** The data lane followed by the extra lane. */
  function PackRequest(service: Bytes, methodName: Bytes, t: ConnType, payload: Bytes): Bytes
  {
    RequestHead(service, methodName, t, |payload|) + payload
  }

  function PackResponse(t: ConnType, payload: Bytes): Bytes
  {
    ResponseHead(t, |payload|) + payload
  }

  /** What is left of the connection type on the wire: Pool and Single are not told apart. */
  function WireType(t: ConnType): ConnType { if t.Short? then Short else Single }

  // ---------------------------------------------------------------- lines of the packed text

  function PackedLines(t: ConnType, n: nat): seq<Bytes>
  {
    [LineOf("Connection", if t.Short? then "Close" else "Keep-Alive"),
     LineOf("Content-Type", "application/data"),
     LineOf("Content-Length", Decimal.Dec(n))]
  }

  lemma BlockOfThree(a: Bytes, b: Bytes, c: Bytes)
    ensures Block([a, b, c]) == a + "\r\n" + (b + "\r\n" + (c + "\r\n" + "\r\n"))
  {
    assert [a, b, c][1..] == [b, c] && [b, c][1..] == [c] && [c][1..] == [];
    assert Block([c]) == c + "\r\n" + Block([]);
    assert Block([b, c]) == b + "\r\n" + Block([c]);
  }

  lemma Regroup(a: Bytes, b: Bytes, c: Bytes, d: Bytes, e: Bytes)
    ensures a + b + c + d + (e + e) == a + (b + ((c + d) + e + e))
  {
  }

  /** The printed headers are a block of three lines. */
  lemma PackedBlock(t: ConnType, n: nat)
    ensures PackedHeaders(t, n) == Block(PackedLines(t, n))
  {
    hide Decimal.Dec;
    var l := PackedLines(t, n);
    BlockOfThree(l[0], l[1], l[2]);
    Regroup(l[0] + "\r\n", l[1] + "\r\n", "Content-Length" + ": ", Decimal.Dec(n), "\r\n");
  }

  lemma NoCrlfJoin(a: Bytes, b: Bytes)
    requires NoCrlf(a) && NoCrlf(b) && (b == [] || b[0] != '\n')
    ensures NoCrlf(a + b)
  {
    forall i | 0 <= i < |a + b| ensures !CrlfAt(a + b, i) {
      if i < |a| {
        assert !CrlfAt(a, i);
      } else {
        assert !CrlfAt(b, i - |a|);
      }
    }
  }

  lemma NoCrlfPart(a: Bytes, b: Bytes, c: Bytes)
    requires NoCrlf(a + b + c)
    ensures NoCrlf(b)
  {
    forall i | 0 <= i < |b| ensures !CrlfAt(b, i) {
      assert !CrlfAt(a + b + c, |a| + i);
    }
  }

  /** A value neither empty nor with a blank at an end. */
  predicate Trimmed(s: Bytes) { s != [] && s[0] != ' ' && s[|s| - 1] != ' ' }

  lemma SplitOfLine(key: Bytes, value: Bytes)
    requires Trimmed(key) && Trimmed(value) && ':' !in key
    ensures SplitHeader(LineOf(key, value)) == Header(key, value)
  {
    var line := LineOf(key, value);
    var i := |key|;
    assert line[i] == ':';
    assert forall j :: 0 <= j < i ==> line[j] == key[j];
    assert IndexOf(line, ':', 0, |line|) == i;
    assert line[..i] == key;
    var rest := line[i + 1..];
    assert rest == " " + value;
    assert rest[0] == ' ' && rest[1..] == value;
    assert TrimLeft(rest) == TrimLeft(value) == value;
  }

  lemma LineOfIsLine(key: Bytes, value: Bytes)
    requires '\r' !in key && '\r' !in value && |key| + |value| + 4 <= MAX_HEADER_SIZE
    ensures Line(LineOf(key, value))
  {
    var line := LineOf(key, value);
    forall i | 0 <= i < |line| ensures !CrlfAt(line, i) {
      assert '\r' !in line;
    }
  }

  function Pow10(k: nat): nat { if k == 0 then 1 else 10 * Pow10(k - 1) }

  lemma {:induction false} DecIsShort(n: nat, k: nat)
    requires k >= 1 && n < Pow10(k)
    ensures |Decimal.Dec(n)| <= k
    decreases k
  {
    if n >= 10 {
      DecIsShort(n / 10, k - 1);
    }
  }

  /** A length of type `size_t` has at most 20 digits. */
  lemma DecBelow64Bits(n: nat)
    requires n < TWO_64
    ensures |Decimal.Dec(n)| <= 20
  {
    assert Pow10(5) == 100_000;
    assert Pow10(10) == 10_000_000_000;
    assert Pow10(15) == 1_000_000_000_000_000;
    assert Pow10(20) == 100_000_000_000_000_000_000;
    DecIsShort(n, 20);
  }

  lemma PackedAreLines(t: ConnType, n: nat)
    requires n < TWO_64
    ensures Lines(PackedLines(t, n))
  {
    DecBelow64Bits(n);
    LineOfIsLine("Connection", if t.Short? then "Close" else "Keep-Alive");
    LineOfIsLine("Content-Type", "application/data");
    LineOfIsLine("Content-Length", Decimal.Dec(n));
  }

  /** A printed line whose name is new is stored. */
  lemma StoresLine(c: Ctx, key: Bytes, value: Bytes)
    requires Trimmed(key) && Trimmed(value) && ':' !in key && key !in c.headers
    requires key == "Content-Length" ==> Decimal.Stoi(value).Number?
    ensures var h := HeaderLine(c, LineOf(key, value));
            && h.status.PartSuccess? && h.ctx == c.(headers := c.headers[key := value],
                                                    bodySize := h.ctx.bodySize, connType := h.ctx.connType)
            && (if key == "Content-Length" then Decimal.Stoi(value) == Decimal.Number(h.ctx.bodySize)
                else h.ctx.bodySize == c.bodySize)
            && h.ctx.connType == if key == "Connection" && value == "Keep-Alive" then Single else c.connType
  {
    SplitOfLine(key, value);
    hide SplitHeader;
    hide LineOf;
    hide Decimal.Stoi;
  }

  /** The comparison is byte for byte: `Keep-alive` is stored, but leaves the connection short. */
  lemma KeepAliveIsExact(c: Ctx)
    requires c.connType.Short? && "Connection" !in c.headers
    ensures var h := HeaderLine(c, LineOf("Connection", "Keep-alive"));
            && h.status.PartSuccess? && h.ctx.headers == c.headers["Connection" := "Keep-alive"]
            && h.ctx.connType.Short?
    ensures HeaderLine(c, LineOf("Connection", "Keep-Alive")).ctx.connType.Single?
  {
    PrintedAreTrimmed(Single);
    SpellingsDiffer();
    hide Trimmed;
    hide HeaderLine;
    hide LineOf;
    StoresLine(c, "Connection", "Keep-alive");
    StoresLine(c, "Connection", "Keep-Alive");
  }

  lemma SpellingsDiffer()
    ensures Trimmed("Keep-alive") && "Keep-alive" != "Keep-Alive"
  {
    assert "Keep-alive"[5] == 'a' && "Keep-Alive"[5] == 'A';
  }

  lemma ThrowsOnLine(c: Ctx, value: Bytes)
    requires Trimmed(value) && "Content-Length" !in c.headers && Decimal.Stoi(value).Threw?
    ensures HeaderLine(c, LineOf("Content-Length", value)).status.Threw?
  {
    var line := LineOf("Content-Length", value);
    SplitOfLine("Content-Length", value);
    assert SplitHeader(line) == Header("Content-Length", value);
    hide SplitHeader;
    hide LineOf;
    hide Decimal.Stoi;
    assert HeaderLine(c, line) == Parse(Threw, c, 0);
  }

  lemma FoldOfThree(c: Ctx, a: Bytes, b: Bytes, d: Bytes)
    requires HeaderLine(c, a).status.PartSuccess? && HeaderLine(HeaderLine(c, a).ctx, b).status.PartSuccess?
    ensures var h := HeaderLine(HeaderLine(HeaderLine(c, a).ctx, b).ctx, d);
            Fold(c, [a, b, d]) == if h.status.PartSuccess? then Parse(PartSuccess, h.ctx, 0) else h
  {
    hide HeaderLine;
    var c1 := HeaderLine(c, a).ctx;
    var c2 := HeaderLine(c1, b).ctx;
    assert [a, b, d] == [a] + [b, d] && [b, d] == [b] + [d];
    MoreLines(c, a, [b, d]);
    MoreLines(c1, b, [d]);
    assert [d][1..] == [];
    assert Fold(HeaderLine(c2, d).ctx, []) == Parse(PartSuccess, HeaderLine(c2, d).ctx, 0);
  }

  lemma PrintedAreTrimmed(t: ConnType)
    ensures Trimmed(if t.Short? then "Close" else "Keep-Alive")
    ensures Trimmed("Connection") && Trimmed("Content-Type") && Trimmed("application/data") && Trimmed("Content-Length")
    ensures ':' !in "Connection" && ':' !in "Content-Type" && ':' !in "Content-Length"
  {
  }

  /** What the three printed header lines do to a context without headers. */
  lemma PackedFold(c: Ctx, t: ConnType, n: nat)
    requires c.headers == map[] && c.connType == Short
    ensures var f := Fold(c, PackedLines(t, n));
            if n <= INT_MAX
            then f.status.PartSuccess? && f.ctx == c.(headers := f.ctx.headers, bodySize := n, connType := WireType(t))
            else f.status.Threw?
  {
    var v, text := if t.Short? then "Close" else "Keep-Alive", Decimal.Dec(n);
    Decimal.StoiOfDec(n);
    assert Trimmed(text);
    PrintedAreTrimmed(t);
    hide Trimmed;
    hide HeaderLine;
    hide Fold;
    hide LineOf;
    hide Decimal.Dec;
    hide Decimal.Stoi;
    StoresLine(c, "Connection", v);
    var c1 := HeaderLine(c, LineOf("Connection", v)).ctx;
    StoresLine(c1, "Content-Type", "application/data");
    var c2 := HeaderLine(c1, LineOf("Content-Type", "application/data")).ctx;
    assert "Content-Length" !in c2.headers;
    if n <= INT_MAX {
      StoresLine(c2, "Content-Length", text);
    } else {
      ThrowsOnLine(c2, text);
    }
    FoldOfThree(c, LineOf("Connection", v), LineOf("Content-Type", "application/data"), LineOf("Content-Length", text));
  }

  // ---------------------------------------------------------------- round trips

  lemma AfterHeaders(k: Kind, c: Ctx, s: Bytes, pos: nat)
    requires c.stage == 1 && pos <= |s|
    ensures var h := ParseHeaders(c, s, pos);
            ParseMsg(k, c, s, pos) ==
            if h.status.PartSuccess? then ParseMsg(k, h.ctx.(stage := 2), s, h.pos) else h
  {
    hide ParseHeaders;
  }

  lemma AfterBody(k: Kind, c: Ctx, s: Bytes, pos: nat)
    requires c.stage == 2 && pos <= |s| && c.bodySize == |s| - pos <= INT_MAX
    ensures ParseMsg(k, c, s, pos) == Parse(Success, c.(stage := 3, payloadView := View(pos, |s|)), pos)
  {
    hide ParseHeaders;
    var r := ParseBody(c, s, pos);
    assert ParseMsg(k, c, s, pos) == ParseMsg(k, r.ctx.(stage := 3), s, pos);
  }

  /** The stages after the first line, on a packed message. */
  lemma RestOfPacked(k: Kind, c: Ctx, t: ConnType, payload: Bytes, s: Bytes, pos: nat)
    requires c.stage == 1 && c.headers == map[] && c.connType == Short
    requires pos <= |s| && s[pos..] == PackedHeaders(t, |payload|) + payload
    requires |payload| < TWO_64
    ensures var r := ParseMsg(k, c, s, pos);
            var body := pos + |PackedHeaders(t, |payload|)|;
            if |payload| <= INT_MAX
            then && r.status.Success? && r.pos == body && r.ctx.connType == WireType(t)
                 && r.ctx.service == c.service && r.ctx.methodName == c.methodName
                 && r.ctx.payloadView == View(body, |s|) && s[body..] == payload
            else r.status.Threw?
  {
    var n := |payload|;
    hide PackedHeaders;
    hide PackedLines;
    hide Fold;
    hide ParseHeaders;
    hide ParseMsg;
    PackedBlock(t, n);
    PackedAreLines(t, n);
    PackedFold(c, t, n);
    HeadersOfLines(c, PackedLines(t, n), s, pos);
    var body := pos + |PackedHeaders(t, n)|;
    assert s[body..] == s[pos..][|PackedHeaders(t, n)|..];
    AfterHeaders(k, c, s, pos);
    if n <= INT_MAX {
      AfterBody(k, ParseHeaders(c, s, pos).ctx.(stage := 2), s, body);
    }
  }

  /** A response is recovered exactly when its length fits `int`; otherwise reading it throws. */
  lemma ResponseRoundTrip(t: ConnType, payload: Bytes)
    requires |payload| < TWO_64
    ensures var s := PackResponse(t, payload);
            var r := ParseMsg(Response, NEW_CTX, s, 0);
            if |payload| <= INT_MAX
            then && r.status.Success? && r.ctx.connType == WireType(t)
                 && r.ctx.payloadView.In(s) && r.ctx.payloadView.Str(s) == payload
                 && r.ctx.payloadView.end == |s|
            else r.status.Threw?
  {
    var s := PackResponse(t, payload);
    var line, rest := "HTTP/1.1 200 OK", PackedHeaders(t, |payload|) + payload;
    hide PackedHeaders;
    assert s == line + "\r\n" + rest;
    OkLine();
    ResponseStart(line, rest);
    hide ParseMsg;
    hide PackResponse;
    RestOfPacked(Response, ResponseLine(NEW_CTX, line, 0).ctx.(stage := 1), t, payload, s, |line| + 2);
  }

  lemma OkLine()
    ensures NoCrlf("HTTP/1.1 200 OK")
  {
    var line := "HTTP/1.1 200 OK";
    forall i | 0 <= i < |line| ensures !CrlfAt(line, i) {
      assert '\r' !in line;
    }
  }

  /** The first line of a response is accepted, whatever it says. */
  lemma ResponseStart(line: Bytes, rest: Bytes)
    requires NoCrlf(line) && |line| + 2 <= MAX_HEADLINE_SIZE
    ensures var s := line + "\r\n" + rest;
            && s[|line| + 2..] == rest
            && ParseMsg(Response, NEW_CTX, s, 0) ==
               ParseMsg(Response, ResponseLine(NEW_CTX, line, 0).ctx.(stage := 1), s, |line| + 2)
  {
    hide FindLine;
    hide ParseMsg;
    hide NoCrlf;
    var s := line + "\r\n" + rest;
    FrontOf(line, rest);
    LineFound(s, 0, MAX_HEADLINE_SIZE, line);
    AfterFirstLine(Response, NEW_CTX, s, line);
  }

  lemma FrontOf(line: Bytes, rest: Bytes)
    ensures var s := line + "\r\n" + rest;
            s[0..] == s && s[..|line|] == line && line + "\r\n" <= s && s[|line| + 2..] == rest
  {
  }

  // ---------------------------------------------------------------- requests

  /** What a caller can check before packing a request. */
  predicate Packable(service: Bytes, methodName: Bytes, payload: Bytes)
  {
    && '/' !in service
    && ' ' !in service && ' ' !in methodName
    && NoCrlf(service) && NoCrlf(methodName)
    && |RequestText(service, methodName)| + 2 <= MAX_HEADLINE_SIZE
    && |payload| <= INT_MAX
  }

  /** The parser gives back what was packed. */
  predicate Recovers(r: Parse, s: Bytes, service: Bytes, methodName: Bytes, t: ConnType, payload: Bytes)
  {
    && r.status.Success?
    && r.ctx.service == service && r.ctx.methodName == methodName && r.ctx.connType == WireType(t)
    && r.ctx.payloadView.In(s) && r.ctx.payloadView.Str(s) == payload
    && r.ctx.payloadView.end == |s|
  }

  lemma NoCr(s: Bytes)
    requires '\r' !in s
    ensures NoCrlf(s)
  {
  }

  lemma RequestTextIsLine(service: Bytes, methodName: Bytes)
    requires NoCrlf(service) && NoCrlf(methodName)
    ensures NoCrlf(RequestText(service, methodName))
  {
    NoCr("POST ");
    NoCr("/");
    NoCr(" ");
    NoCr("HTTP/1.1");
    var m := "/" + methodName;
    assert NoCrlf(m) by { SlashFirst(methodName); }
    NoCrlfJoin(service, m);
    var path := service + m;
    var url := "/" + path;
    assert NoCrlf(url) by { SlashFirst(path); }
    NoCrlfJoin("POST ", url);
    NoCrlfJoin("POST " + url, " ");
    NoCrlfJoin("POST " + url + " ", "HTTP/1.1");
    assert "/" + service + "/" + methodName == url;
  }

  lemma SlashFirst(s: Bytes)
    requires NoCrlf(s)
    ensures NoCrlf("/" + s)
  {
    var u := "/" + s;
    forall i | 0 <= i < |u| ensures !CrlfAt(u, i) {
      if i > 0 {
        assert !CrlfAt(s, i - 1);
      }
    }
  }

  /** Joining two names with a slash loses nothing when the first has no slash. */
  lemma JoinInjective(a: Bytes, b: Bytes, c: Bytes, d: Bytes)
    requires "/" + a + "/" + b == "/" + c + "/" + d
    requires '/' !in a && '/' !in c
    ensures a == c && b == d
  {
    var u, v := "/" + a + "/" + b, "/" + c + "/" + d;
    assert u[|a| + 1] == '/' && v[|c| + 1] == '/';
    assert |a| == |c|;
    assert a == u[1..|a| + 1] && c == v[1..|c| + 1];
    assert b == u[|a| + 2..] && d == v[|c| + 2..];
  }

  lemma PackedStart(service: Bytes, methodName: Bytes, t: ConnType, payload: Bytes)
    ensures var s := PackRequest(service, methodName, t, payload);
            var text := RequestText(service, methodName);
            && text + "\r\n" <= s
            && s[|text| + 2..] == PackedHeaders(t, |payload|) + payload
  {
    hide RequestText;
    hide PackedHeaders;
  }

  /** The request line of a packable request is accepted and names what was packed. */
  lemma PackedLine(service: Bytes, methodName: Bytes)
    requires '/' !in service && ' ' !in service && ' ' !in methodName
    ensures var r := RequestLine(NEW_CTX, RequestText(service, methodName), 0);
            && r.status.PartSuccess? && r.ctx.service == service && r.ctx.methodName == methodName
            && r.ctx.headers == map[] && r.ctx.connType == Short && r.ctx.bodySize == 0
  {
    hide RequestLine;
    var url := "/" + service + "/" + methodName;
    assert METHODS[1] + " " == "POST ";
    assert ' ' !in url;
    assert url[1..] == service + "/" + methodName;
    assert url[1..][|service|] == '/';
    RequestLineComplete(NEW_CTX, RequestText(service, methodName), 0, 1, url, "HTTP/1.1");
    var r := RequestLine(NEW_CTX, RequestText(service, methodName), 0).ctx;
    JoinInjective(service, methodName, r.service, r.methodName);
  }

  lemma AfterFirstLine(k: Kind, c: Ctx, s: Bytes, line: Bytes)
    requires c.stage == 0 && FindLine(s, 0, MAX_HEADLINE_SIZE) == LineAt(|line|) && s[..|line|] == line
    ensures var r := FirstLine(k, c, line, 0);
            ParseMsg(k, c, s, 0) ==
            if r.status.PartSuccess? then ParseMsg(k, r.ctx.(stage := 1), s, r.pos) else r
  {
    hide FirstLine;
    assert s[0..|line|] == line;
    assert ParseFirstLine(k, c, s, 0) == FirstLine(k, c, line, 0);
  }

  /** One call on a packed request whose names are printable. */
  lemma PackedParse(service: Bytes, methodName: Bytes, t: ConnType, payload: Bytes)
    requires '/' !in service && ' ' !in service && ' ' !in methodName
    requires NoCrlf(service) && NoCrlf(methodName)
    requires |RequestText(service, methodName)| + 2 <= MAX_HEADLINE_SIZE
    requires |payload| < TWO_64
    ensures var s := PackRequest(service, methodName, t, payload);
            var r := ParseMsg(Request, NEW_CTX, s, 0);
            if |payload| <= INT_MAX then Recovers(r, s, service, methodName, t, payload) else r.status.Threw?
  {
    hide RequestText;
    hide ParseMsg;
    hide RequestLine;
    var s := PackRequest(service, methodName, t, payload);
    var text := RequestText(service, methodName);
    PackedStart(service, methodName, t, payload);
    hide PackRequest;
    hide PackedHeaders;
    RequestTextIsLine(service, methodName);
    assert s[0..] == s && s[0..|text|] == s[..|text|];
    LineFound(s, 0, MAX_HEADLINE_SIZE, text);
    PackedLine(service, methodName);
    AfterFirstLine(Request, NEW_CTX, s, text);
    var r := RequestLine(NEW_CTX, text, 0);
    assert r.pos == |text| + 2 by { LinePos(NEW_CTX, text, 0); }
    RestOfPacked(Request, r.ctx.(stage := 1), t, payload, s, r.pos);
  }

  lemma LinePos(c: Ctx, line: Bytes, base: nat)
    requires RequestLine(c, line, base).status.PartSuccess?
    ensures RequestLine(c, line, base).pos == base + |line| + 2
    ensures RequestLine(c, line, base).ctx.stage == c.stage
  {
  }

  /** The names survive the stages after the first line. */
  lemma {:induction false} NamesKept(k: Kind, c: Ctx, s: Bytes, pos: nat)
    requires pos <= |s| && c.stage >= 1
    ensures var r := ParseMsg(k, c, s, pos).ctx; r.service == c.service && r.methodName == c.methodName
    decreases 3 - c.stage
  {
    if c.stage < 3 {
      HeadersKeep(c, s, pos);
      hide ParseHeaders;
      var r := Stage(k, c, s, pos);
      if r.status.PartSuccess? {
        NamesKept(k, r.ctx.(stage := c.stage + 1), s, r.pos);
      }
    }
  }

  /** Names that a request line can carry. */
  lemma NamesOfLine(line: Bytes, m: nat, url: Bytes, version: Bytes, service: Bytes, methodName: Bytes)
    requires Shape(line, m, url, version) && NoCrlf(line) && Names(url, service, methodName)
    ensures '/' !in service && ' ' !in service && ' ' !in methodName
    ensures NoCrlf(service) && NoCrlf(methodName)
  {
    if '/' in url[1..] {
      var a := METHODS[m] + " ";
      var z := " " + version;
      assert line == a + url + z;
      NoCrlfPart(a, url, z);
      assert url == "/" + service + ("/" + methodName);
      NoCrlfPart("/", service, "/" + methodName);
      assert url == ("/" + service + "/") + methodName + [];
      NoCrlfPart("/" + service + "/", methodName, []);
      assert forall i :: 0 <= i < |service| ==> service[i] == url[1 + i];
      assert forall i :: 0 <= i < |methodName| ==> methodName[i] == url[2 + |service| + i];
    }
  }

  /** What a recovered request says about the names that were packed. */
  lemma RecoveredNames(service: Bytes, methodName: Bytes, t: ConnType, payload: Bytes)
    requires var s := PackRequest(service, methodName, t, payload);
             Recovers(ParseMsg(Request, NEW_CTX, s, 0), s, service, methodName, t, payload)
    ensures '/' !in service && ' ' !in service && ' ' !in methodName
    ensures NoCrlf(service) && NoCrlf(methodName)
    ensures |RequestText(service, methodName)| + 2 <= MAX_HEADLINE_SIZE
  {
    var s := PackRequest(service, methodName, t, payload);
    PackedStart(service, methodName, t, payload);
    hide PackRequest;
    hide RequestText;
    hide RequestLine;
    var l := FindLine(s, 0, MAX_HEADLINE_SIZE);
    assert l.LineAt?;
    FoundLine(s, 0, MAX_HEADLINE_SIZE);
    var line := s[0..l.end];
    assert s[..|line|] == line;
    AfterFirstLine(Request, NEW_CTX, s, line);
    hide FindLine;
    hide ParseMsg;
    var r := RequestLine(NEW_CTX, line, 0);
    assert r.status.PartSuccess?;
    LinePos(NEW_CTX, line, 0);
    NamesKept(Request, r.ctx.(stage := 1), s, r.pos);
    var url, version := RequestLineSound(NEW_CTX, line, 0);
    NamesOfLine(line, r.ctx.httpMethod, url, version, service, methodName);
    RequestTextIsLine(service, methodName);
    FirstLineEnd(s, RequestText(service, methodName), l.end);
  }

  lemma FirstLineEnd(s: Bytes, text: Bytes, e: nat)
    requires text + "\r\n" <= s && NoCrlf(text) && CrlfAt(s, e)
    ensures e >= |text|
  {
    assert (text + "\r\n")[|text|] == '\r';
    assert e < |text| ==> s[e] == text[e] && !CrlfAt(text, e);
  }

  /** Request round trip: the parser gives back service, method, connection type (Pool as Single)
      and payload of a packed request if and only if the request is packable. */
  lemma RequestRoundTrip(service: Bytes, methodName: Bytes, t: ConnType, payload: Bytes)
    requires |payload| < TWO_64
    ensures var s := PackRequest(service, methodName, t, payload);
            Recovers(ParseMsg(Request, NEW_CTX, s, 0), s, service, methodName, t, payload)
            <==> Packable(service, methodName, payload)
  {
    hide RequestText;
    hide PackRequest;
    hide ParseMsg;
    var s := PackRequest(service, methodName, t, payload);
    if Packable(service, methodName, payload) {
      PackedParse(service, methodName, t, payload);
    }
    if Recovers(ParseMsg(Request, NEW_CTX, s, 0), s, service, methodName, t, payload) {
      RecoveredNames(service, methodName, t, payload);
      PackedParse(service, methodName, t, payload);
    }
  }

  // ---------------------------------------------------------------- the texts

  /** The three header lines, for a length of two digits. */
  lemma HeaderText()
    ensures PackedHeaders(Single, 12) ==
            "Connection: Keep-Alive\r\n" + "Content-Type: application/data\r\n" + "Content-Length: " + "12" + "\r\n\r\n"
    ensures PackedHeaders(Short, 12) ==
            "Connection: Close\r\n" + "Content-Type: application/data\r\n" + "Content-Length: " + "12" + "\r\n\r\n"
  {
    ConnText();
    TypeText();
    TwelveText();
    assert "Content-Length" + ": " == "Content-Length: ";
    assert "\r\n" + "\r\n" == "\r\n\r\n";
    hide ConnLine;
    hide Decimal.Dec;
  }

  lemma ConnText()
    ensures ConnLine(Single) == "Connection: Keep-Alive\r\n" && ConnLine(Short) == "Connection: Close\r\n"
  {
  }

  lemma TypeText()
    ensures TYPE_LINE == "Content-Type: application/data\r\n"
  {
  }

  lemma TwelveText()
    ensures Decimal.Dec(12) == "12"
  {
    assert Decimal.Dec(12) == Decimal.Dec(1) + "2" && Decimal.Dec(1) == "1";
  }

  /** The whole texts of a request and of a response. */
  lemma PackedText(payload: Bytes)
    requires |payload| == 12
    ensures PackRequest("S", "m", Single, payload) ==
            "POST /S/m HTTP/1.1\r\n" + PackedHeaders(Single, 12) + payload
    ensures PackResponse(Single, payload) == "HTTP/1.1 200 OK\r\n" + PackedHeaders(Single, 12) + payload
  {
    hide PackedHeaders;
    assert RequestText("S", "m") + "\r\n" == "POST /S/m HTTP/1.1\r\n";
  }
}
