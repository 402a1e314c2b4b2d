/** What protocols/http.cpp computes, on the bytes received so far.

A parser call is a function of the context, the bytes `s` between the start of the storage and
the write index, and the read index `pos`.  `s` only grows while a message is being received. */
module HttpSpec {
  import opened Bytes
  import opened Protocol
  import Decimal

  const MAX_HEADLINE_SIZE := 65536
  const MAX_HEADER_SIZE := 65536

  /** The parsing state of `HTTPContext`. */
  datatype Ctx = Ctx(
    stage: nat,
    bodySize: int,
    httpMethod: int,
    url: View,
    version: View,
    requestLine: View,
    headers: map<Bytes, Bytes>,
    connType: ConnType,
    service: Bytes,
    methodName: Bytes,
    payloadView: View)

  const NEW_CTX := Ctx(0, 0, -1, NO_VIEW, NO_VIEW, NO_VIEW, map[], Short, [], [], NO_VIEW)

  /** The result of a parser call: its status, the context and the read index it leaves. */
  datatype Parse = Parse(status: Status, ctx: Ctx, pos: nat)

  /** Which of `parse_request` and `parse_response` is meant; they differ in the first line only. */
  datatype Kind = Request | Response

  /** The methods tried by the two method loops; the last enumerator, CONNECT, is not. */
  const METHODS: seq<Bytes> := ["GET", "POST", "HEAD", "OPTIONS", "PUT", "PATCH", "DELETE", "TRACE"]

  /** `strncmp(s, m, |m|) == 0` for each method in order: the first match from `i` on, or -1. */
  function MatchMethod(s: Bytes, i: nat): (r: int)
    requires i <= |METHODS|
    ensures r == -1 || i <= r < |METHODS|
    ensures r != -1 ==> METHODS[r] <= s
    ensures r == -1 ==> forall j :: i <= j < |METHODS| ==> !(METHODS[j] <= s)
    ensures r != -1 ==> forall j :: i <= j < r ==> !(METHODS[j] <= s)
    decreases |METHODS| - i
  {
    if i == |METHODS| then -1 else if METHODS[i] <= s then i else MatchMethod(s, i + 1)
  }

  /** `_parse_request_line` on a line (without its CRLF) that starts at index `base`. */
  function RequestLine(c: Ctx, line: Bytes, base: nat): (r: Parse)
    ensures r.status in {PartSuccess, Error}
  {
    var m := MatchMethod(line, 0);
    var c1 := if m == -1 then c else c.(httpMethod := m);
    var o := if m == -1 then 0 else |METHODS[m]|;
    if !(0 <= c1.httpMethod <= 8) then Parse(Error, c1, base) else Target(c1, line, o, base)
  }

  datatype Path = Path(service: Bytes, methodName: Bytes) | NoPath

  /** The two names in a url, separated by its second slash. */
  function SplitPath(url: Bytes): Path
    requires url != []
  {
    var sl := IndexOf(url, '/', 1, |url|);
    if sl == -1 then NoPath else Path(url[1..sl], url[sl + 1..])
  }

  /** The rest of a request line, from the index `o` behind the method on. */
  function Target(c: Ctx, line: Bytes, o: nat, base: nat): (r: Parse)
    requires o <= |line|
    ensures r.status in {PartSuccess, Error}
    ensures r.ctx.stage == c.stage
    ensures base <= r.pos <= base + |line| + 2
  {
    if o == |line| || line[o] != ' ' then Parse(Error, c, base) else
    var u := o + 1;
    var sp := IndexOf(line, ' ', u, |line|);
    if sp == -1 || sp == u || line[u] != '/' then Parse(Error, c, base) else
    TargetResult(c, base, base + |line|, base + u, base + sp, SplitPath(line[u..sp]),
                 IndexOf(line, ' ', sp + 1, |line|) != -1)
  }

  /** The url and its names in the context. */
  function WithPath(c: Ctx, url: View, p: Path): Ctx
  {
    if p.NoPath? then c.(url := url) else c.(url := url, service := p.service, methodName := p.methodName)
  }

  /** The context when the url `[u, sp)` of the line `[base, e)` has been found. */
  function TargetResult(c: Ctx, base: nat, e: nat, u: nat, sp: nat, p: Path, thirdBlank: bool): Parse
  {
    var c2 := WithPath(c, View(u, sp), p);
    if thirdBlank then Parse(Error, c2, base)
    else Parse(PartSuccess, c2.(version := View(sp + 1, e), requestLine := View(base, e)), e + 2)
  }

  /** `_parse_response_line` on a line: it is accepted whatever it says. */
  function ResponseLine(c: Ctx, line: Bytes, base: nat): Parse
  {
    Parse(PartSuccess, c.(requestLine := View(base, base + |line|)), base + |line| + 2)
  }

  function FirstLine(k: Kind, c: Ctx, line: Bytes, base: nat): Parse
  {
    if k.Request? then RequestLine(c, line, base) else ResponseLine(c, line, base)
  }

  /** The search for the end of a line that starts at `pos`, within `limit` bytes: either the
      index of its CRLF, or the status that the caller must return. */
  datatype LineEnd = LineAt(end: nat) | NoLine(status: Status)

  function FindLine(s: Bytes, pos: nat, limit: nat): (r: LineEnd)
    requires pos <= |s| && limit > 0
    ensures r.LineAt? ==> pos <= r.end && r.end + 2 <= |s| && CrlfAt(s, r.end)
    ensures r.NoLine? ==> r.status in {NoEnoughData, Error}
  {
    var size := Min(|s| - pos, limit);
    if size == 0 then NoLine(NoEnoughData) else
    var e := FindCrlf(s, pos, pos + size);
    if e == -1 then NoLine(if size == limit then Error else NoEnoughData) else LineAt(e)
  }

  function TrimLeft(s: Bytes): Bytes
  {
    if s != [] && s[0] == ' ' then TrimLeft(s[1..]) else s
  }

  function TrimRight(s: Bytes): Bytes
  {
    if s != [] && s[|s| - 1] == ' ' then TrimRight(s[..|s| - 1]) else s
  }

  /** `trim`: strips blanks, and only blanks, at both ends. */
  function Trim(s: Bytes): Bytes { TrimRight(TrimLeft(s)) }

  /** The trimmed name and value of a header line, split at its first colon. */
  datatype Header = Header(key: Bytes, value: Bytes) | Malformed

  function SplitHeader(line: Bytes): Header
  {
    var i := IndexOf(line, ':', 0, |line|);
    if i == -1 || i == 0 then Malformed
    else Header(Trim(line[..i]), Trim(line[i + 1..]))
  }

  /** The effect of one header line on the context. */
  function HeaderLine(c: Ctx, line: Bytes): (r: Parse)
    ensures r.status in {PartSuccess, Error, Threw}
  {
    var h := SplitHeader(line);
    if h.Malformed? then Parse(Error, c, 0)
    else if h.key == [] || h.value == [] || h.key in c.headers then Parse(PartSuccess, c, 0)
    else if h.key == "Content-Length" && Decimal.Stoi(h.value).Threw? then Parse(Threw, c, 0)
    else
      var c1 := if h.key == "Content-Length" then c.(bodySize := Decimal.Stoi(h.value).value) else c;
      var c2 := if h.key == "Connection" && h.value == "Keep-Alive" then c1.(connType := Single) else c1;
      Parse(PartSuccess, c2.(headers := c2.headers[h.key := h.value]), 0)
  }

  function ParseFirstLine(k: Kind, c: Ctx, s: Bytes, pos: nat): Parse
    requires pos <= |s|
  {
    match FindLine(s, pos, MAX_HEADLINE_SIZE)
    case NoLine(status) => Parse(status, c, pos)
    case LineAt(e) => FirstLine(k, c, s[pos..e], pos)
  }

  /** `_parse_headers` */
  function ParseHeaders(c: Ctx, s: Bytes, pos: nat): (r: Parse)
    requires pos <= |s|
    ensures pos <= r.pos <= |s|
    decreases |s| - pos
  {
    match FindLine(s, pos, MAX_HEADER_SIZE)
    case NoLine(status) => Parse(status, c, pos)
    case LineAt(e) =>
      if e == pos then Parse(PartSuccess, c, pos + 2) else
      var h := HeaderLine(c, s[pos..e]);
      if h.status.PartSuccess? then ParseHeaders(h.ctx, s, e + 2) else Parse(h.status, c, pos)
  }

  /** `_parse_body`; the body is not retrieved. */
  function ParseBody(c: Ctx, s: Bytes, pos: nat): Parse
    requires pos <= |s|
  {
    if AsInt32(|s| - pos) >= c.bodySize
    then Parse(PartSuccess, c.(payloadView := View(pos, pos + c.bodySize)), pos)
    else Parse(NoEnoughData, c, pos)
  }

  /** One of the three stages. */
  function Stage(k: Kind, c: Ctx, s: Bytes, pos: nat): (r: Parse)
    requires pos <= |s| && c.stage < 3
    ensures pos <= r.pos <= |s|
    ensures r.ctx.stage == c.stage
  {
    if c.stage == 0 then ParseFirstLine(k, c, s, pos)
    else if c.stage == 1 then HeadersKeep(c, s, pos); ParseHeaders(c, s, pos)
    else ParseBody(c, s, pos)
  }

  /** Header lines touch the header map, the body size and the connection type only. */
  lemma {:induction false} HeadersKeep(c: Ctx, s: Bytes, pos: nat)
    requires pos <= |s|
    ensures var r := ParseHeaders(c, s, pos).ctx;
            r == c.(headers := r.headers, bodySize := r.bodySize, connType := r.connType)
    decreases |s| - pos
  {
    hide FindLine;
    hide HeaderLine;
    match FindLine(s, pos, MAX_HEADER_SIZE)
    case NoLine(_) =>
    case LineAt(e) =>
      var h := HeaderLine(c, s[pos..e]);
      LineKeeps(c, s[pos..e]);
      if e != pos && h.status.PartSuccess? {
        HeadersKeep(h.ctx, s, e + 2);
      }
  }

  lemma LineKeeps(c: Ctx, line: Bytes)
    ensures var r := HeaderLine(c, line).ctx;
            r == c.(headers := r.headers, bodySize := r.bodySize, connType := r.connType)
  {
  }

  /** `parse_request` and `parse_response`: stages run until one does not succeed. */
  function ParseMsg(k: Kind, c: Ctx, s: Bytes, pos: nat): (r: Parse)
    requires pos <= |s|
    ensures pos <= r.pos <= |s|
    decreases 3 - c.stage
  {
    if c.stage >= 3 then Parse(Success, c, pos) else
    var r := Stage(k, c, s, pos);
    if r.status.PartSuccess? then ParseMsg(k, r.ctx.(stage := c.stage + 1), s, r.pos) else r
  }
}
