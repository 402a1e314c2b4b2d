/** `class HTTPContext`, proved against HttpSpec and the packed texts of HttpRoundTrip.  Buffer
    bytes are read through `Buffer.At` and searches inside the written part only, so each parser
    call is also proved to look at received bytes only. */
module Http {
  import opened Bytes
  import B = Bytes
  import opened Protocol
  import opened HttpSpec
  import opened BufferSpec
  import opened Buffers
  import M = HttpMeaning
  import R = HttpRoundTrip
  import Decimal

  /** `strncmp(s + at, m, |m|) == 0` from the `k`-th byte on.  The comparison stops at the first
      difference, at the latest at the carriage return at `e`, since no method contains one. */
  predicate Strneq(s: Bytes, at: nat, m: Bytes, k: nat, ghost e: nat)
    requires k <= |m| && at + k <= e < |s| && s[e] == '\r' && '\r' !in m
    ensures Strneq(s, at, m, k, e) <==> m[k..] <= s[at + k..e]
    decreases |m| - k
  {
    if k == |m| then true
    else
      assert m[k..] == [m[k]] + m[k + 1..];
      assert at + k < e ==> s[at + k..e] == [s[at + k]] + s[at + k + 1..e];
      s[at + k] == m[k] && Strneq(s, at, m, k + 1, e)
  }

  lemma SliceOfSlice(s: Bytes, a: nat, b: nat, c: nat, d: nat)
    requires a <= b <= |s| && c <= d <= b - a
    ensures s[a..b][c..d] == s[a + c..a + d]
  {
    var t := s[a..b];
    assert |t[c..d]| == d - c;
    forall i | 0 <= i < d - c ensures t[c..d][i] == s[a + c..a + d][i] {
      assert t[c..d][i] == t[c + i] == s[a + (c + i)];
    }
  }

  lemma MatchStep(line: Bytes, i: nat)
    requires i < |METHODS|
    ensures MatchMethod(line, i) == if METHODS[i] <= line then i else MatchMethod(line, i + 1)
    ensures '\r' !in METHODS[i]
  {
  }

  lemma IndexOfShift(s: Bytes, pos: nat, e: nat, c: char, lo: nat, hi: nat)
    requires pos <= e <= |s| && lo <= hi <= e - pos
    ensures var r := IndexOf(s[pos..e], c, lo, hi);
            IndexOf(s, c, pos + lo, pos + hi) == if r == -1 then -1 else pos + r
  {
    var line := s[pos..e];
    assert forall i :: 0 <= i < |line| ==> line[i] == s[pos + i];
    var r := IndexOf(line, c, lo, hi);
    var q := IndexOf(s, c, pos + lo, pos + hi);
    if q != -1 {
      assert line[q - pos] == c;
    }
  }

  lemma SlashIndex(s: Bytes, a: nat, b: nat)
    requires a < b < |s| && s[b] == ' '
    ensures var q := IndexOf(s[a..b], '/', 1, b - a);
            IndexOf(s, '/', a + 1, b + 1) == if q == -1 then -1 else a + q
  {
    IndexOfShift(s, a, b, '/', 1, b - a);
    var wide, sl := IndexOf(s, '/', a + 1, b + 1), IndexOf(s, '/', a + 1, b);
    hide IndexOf;
    assert wide == sl;
  }

  function PathIn(s: Bytes, u: nat, sp: nat): Path
    requires u < sp < |s| && s[sp] == ' '
  {
    var sl := IndexOf(s, '/', u + 1, sp + 1);
    if sl == -1 then NoPath else Path(s[u + 1..sl], s[sl + 1..sp])
  }

  /** The search for the second slash looks one byte too far, at the blank behind the url. */
  lemma SlashSearch(s: Bytes, a: nat, b: nat)
    requires a < b < |s| && s[b] == ' '
    ensures PathIn(s, a, b) == SplitPath(s[a..b])
  {
    var url := s[a..b];
    SlashIndex(s, a, b);
    hide IndexOf;
    var q := IndexOf(url, '/', 1, |url|);
    if q != -1 {
      SliceOfSlice(s, a, b, 1, q);
      SliceOfSlice(s, a, b, q + 1, b - a);
      assert url[q + 1..] == url[q + 1..b - a];
    }
  }

  /** `Target` in terms of buffer indices, as the code computes it. */
  function TargetIn(c: HttpSpec.Ctx, s: Bytes, pos: nat, e: nat, o: nat): Parse
    requires pos + o <= e < |s|
  {
    if s[pos + o] != ' ' || pos + o == e then Parse(Error, c, pos) else
    var u := pos + o + 1;
    var sp := IndexOf(s, ' ', u, e);
    if sp == -1 || sp == u || s[u] != '/' then Parse(Error, c, pos) else
    TargetResult(c, pos, e, u, sp, PathIn(s, u, sp), IndexOf(s, ' ', sp + 1, e) != -1)
  }

  lemma TargetParts(s: Bytes, pos: nat, e: nat, u: nat)
    requires pos + u <= e < |s|
    ensures var line, n := s[pos..e], e - pos;
            var sp := IndexOf(line, ' ', u, n);
            && IndexOf(s, ' ', pos + u, e) == (if sp == -1 then -1 else pos + sp)
            && (sp > u ==>
                  && line[u] == s[pos + u]
                  && PathIn(s, pos + u, pos + sp) == SplitPath(line[u..sp])
                  && (IndexOf(s, ' ', pos + sp + 1, e) == -1 <==> IndexOf(line, ' ', sp + 1, n) == -1))
  {
    hide IndexOf;
    hide SplitPath;
    hide PathIn;
    var line, n := s[pos..e], e - pos;
    IndexOfShift(s, pos, e, ' ', u, n);
    var sp := IndexOf(line, ' ', u, n);
    if sp > u {
      SlashSearch(s, pos + u, pos + sp);
      SliceOfSlice(s, pos, e, u, sp);
      IndexOfShift(s, pos, e, ' ', sp + 1, n);
    }
  }

  lemma TargetInBuffer(c: HttpSpec.Ctx, s: Bytes, pos: nat, e: nat, o: nat)
    requires pos + o <= e < |s|
    ensures TargetIn(c, s, pos, e, o) == Target(c, s[pos..e], o, pos)
  {
    hide IndexOf;
    hide SplitPath;
    hide PathIn;
    hide TargetResult;
    assert pos + o < e ==> s[pos..e][o] == s[pos + o];
    if pos + o < e {
      TargetParts(s, pos, e, o + 1);
    }
  }

  lemma PiecesAreShort(t: ConnType)
    ensures |R.ConnLine(t)| <= 64 && |R.TYPE_LINE| <= 64
  {
  }

  /** The search of the parsers, on the buffer and on the bytes written. */
  lemma FindLineIn(buf: Buffer, limit: nat)
    requires buf.Valid() && limit > 0
    ensures var size := Min(buf.windex - buf.rindex, limit);
            var l := FindLine(buf.Written(), buf.rindex, limit);
            if size == 0 then l == NoLine(NoEnoughData)
            else var n := buf.FindCrlf(size);
              if n == -1 then l == NoLine(if size == limit then Error else NoEnoughData)
              else l == LineAt(buf.rindex + n)
  {
    hide B.FindCrlf;
  }

  class HttpContext {
    var stage: nat
    var bodySize: int
    var httpMethod: int
    var url: View
    var version: View
    var requestLine: View
    var headers: map<Bytes, Bytes>
    var connType: ConnType
    var service: Bytes
    var methodName: Bytes
    var payloadView: View
    var payload: Bytes

    function Ctx(): HttpSpec.Ctx
      reads this
    {
      HttpSpec.Ctx(stage, bodySize, httpMethod, url, version, requestLine, headers, connType, service,
                   methodName, payloadView)
    }

    constructor ()
      ensures Ctx() == NEW_CTX && payload == []
    {
      stage, bodySize, httpMethod, headers, connType := 0, 0, -1, map[], Short;
      url, version, requestLine, payloadView := NO_VIEW, NO_VIEW, NO_VIEW, NO_VIEW;
      service, methodName, payload := [], [], [];
    }

    /** The method loop: the index of the matched method and the offset behind it. */
    method FindMethod(buf: Buffer, ghost e: nat) returns (m: int, offset: nat)
      requires buf.Valid() && buf.rindex <= e < buf.windex && buf.data[e] == '\r'
      ensures m == MatchMethod(buf.data[buf.rindex..e], 0)
      ensures offset == if m == -1 then 0 else |METHODS[m]|
      ensures buf.rindex + offset <= e
    {
      hide MatchMethod;
      hide Strneq;
      ghost var line := buf.data[buf.rindex..e];
      assert buf.data[..buf.windex][buf.rindex + 0..e] == line;
      var i := 0;
      while i < |METHODS|
        invariant i <= |METHODS|
        invariant MatchMethod(line, 0) == MatchMethod(line, i)
      {
        MatchStep(line, i);
        var name := METHODS[i];
        assert name[0..] == name;
        if Strneq(buf.data[..buf.windex], buf.rindex, name, 0, e) {
          return i, |name|;
        }
        i := i + 1;
      }
      return -1, 0;
    }

    /** `_parse_request_line` behind the method. */
    method ParseTarget(buf: Buffer, n: nat, offset: nat) returns (status: Status)
      requires buf.Valid() && buf.rindex + n + 2 <= buf.windex && CrlfAt(buf.Written(), buf.rindex + n)
      requires offset <= n
      modifies this, buf`rindex
      ensures buf.Valid()
      ensures Parse(status, Ctx(), buf.rindex) ==
              Target(old(Ctx()), old(buf.Written())[old(buf.rindex)..old(buf.rindex) + n], offset, old(buf.rindex))
    {
      hide IndexOf;
      hide Target;
      hide TargetResult;
      hide PathIn;
      var s, pos := buf.data[..buf.windex], buf.rindex;
      var e := pos + n;
      TargetInBuffer(Ctx(), s, pos, e, offset);
      assert s[e] == '\r';
      if buf.At(offset) != ' ' {
        return Error;
      }
      var u := pos + offset + 1;
      var tmp := IndexOf(s, ' ', u, e);
      if tmp == -1 || tmp == u || buf.At(u - pos) != '/' {
        return Error;
      }
      status := StoreTarget(buf, n, u, tmp);
    }

    /** The rest of `_parse_request_line`, for the url between the indices `u` and `tmp`. */
    method StoreTarget(buf: Buffer, n: nat, u: nat, tmp: nat) returns (status: Status)
      requires buf.Valid() && buf.rindex + n + 2 <= buf.windex
      requires buf.rindex <= u < tmp < buf.rindex + n && buf.data[tmp] == ' '
      modifies this, buf`rindex
      ensures buf.Valid()
      ensures var s, e := old(buf.Written()), old(buf.rindex) + n;
              Parse(status, Ctx(), buf.rindex) ==
              TargetResult(old(Ctx()), old(buf.rindex), e, u, tmp, PathIn(s, u, tmp), IndexOf(s, ' ', tmp + 1, e) != -1)
    {
      hide IndexOf;
      hide PathIn;
      hide WithPath;
      var s, pos := buf.data[..buf.windex], buf.rindex;
      StorePath(s, u, tmp);
      if IndexOf(s, ' ', tmp + 1, pos + n) != -1 {
        return Error;
      }
      version := View(tmp + 1, pos + n);
      requestLine := View(pos, pos + n);
      buf.Retrieve(n + 2);
      return PartSuccess;
    }

    /** The url and its names. */
    method StorePath(s: Bytes, u: nat, tmp: nat)
      requires u < tmp < |s| && s[tmp] == ' '
      modifies this
      ensures Ctx() == WithPath(old(Ctx()), View(u, tmp), PathIn(s, u, tmp))
    {
      hide IndexOf;
      url := View(u, tmp);
      var tmp2 := IndexOf(s, '/', u + 1, tmp + 1);
      if tmp2 != -1 {
        service := s[u + 1..tmp2];
        methodName := s[tmp2 + 1..tmp];
      }
    }

    /** `_parse_request_line` */
    method ParseRequestLine(buf: Buffer) returns (status: Status)
      requires buf.Valid()
      modifies this, buf`rindex
      ensures buf.Valid()
      ensures Parse(status, Ctx(), buf.rindex) ==
              ParseFirstLine(Request, old(Ctx()), old(buf.Written()), old(buf.rindex))
    {
      hide FindLine;
      hide RequestLine;
      FindLineIn(buf, MAX_HEADLINE_SIZE);
      var size := Min(buf.windex - buf.rindex, MAX_HEADLINE_SIZE);
      if size == 0 {
        return NoEnoughData;
      }
      var n := buf.FindCrlf(size);
      if n == -1 {
        return if size == MAX_HEADLINE_SIZE then Error else NoEnoughData;
      }
      status := ParseLine(buf, n);
    }

    /** The rest of `_parse_request_line`, for a line of `n` bytes. */
    method ParseLine(buf: Buffer, n: nat) returns (status: Status)
      requires buf.Valid() && buf.rindex + n + 2 <= buf.windex && CrlfAt(buf.Written(), buf.rindex + n)
      modifies this, buf`rindex
      ensures buf.Valid()
      ensures Parse(status, Ctx(), buf.rindex) ==
              RequestLine(old(Ctx()), old(buf.Written())[old(buf.rindex)..old(buf.rindex) + n], old(buf.rindex))
    {
      hide MatchMethod;
      hide Target;
      ghost var e := buf.rindex + n;
      SliceOfPrefix(buf.data, buf.windex, buf.rindex, e);
      assert buf.data[e] == buf.Written()[e];
      var m, offset := FindMethod(buf, e);
      if m != -1 {
        httpMethod := m;
      }
      if !(0 <= httpMethod <= 8) {
        return Error;
      }
      status := ParseTarget(buf, n, offset);
    }

    /** `_parse_response_line` */
    method ParseResponseLine(buf: Buffer) returns (status: Status)
      requires buf.Valid()
      modifies this, buf`rindex
      ensures buf.Valid()
      ensures Parse(status, Ctx(), buf.rindex) ==
              ParseFirstLine(Response, old(Ctx()), old(buf.Written()), old(buf.rindex))
    {
      hide FindLine;
      FindLineIn(buf, MAX_HEADLINE_SIZE);
      var size := Min(buf.windex - buf.rindex, MAX_HEADLINE_SIZE);
      if size == 0 {
        return NoEnoughData;
      }
      var n := buf.FindCrlf(size);
      if n == -1 {
        return if size == MAX_HEADLINE_SIZE then Error else NoEnoughData;
      }
      requestLine := View(buf.rindex, buf.rindex + n);
      buf.Retrieve(n + 2);
      return PartSuccess;
    }

    /** One turn of the header loop on a line of `n` bytes, without the retrieve. */
    method ParseHeaderLine(buf: Buffer, n: nat) returns (status: Status)
      requires buf.Valid() && buf.rindex + n <= buf.windex
      modifies this
      ensures var h := HeaderLine(old(Ctx()), buf.Written()[buf.rindex..buf.rindex + n]);
              status == h.status && Ctx() == h.ctx
    {
      hide IndexOf;
      hide Trim;
      hide HeaderLine;
      hide SplitHeader;
      var s, pos := buf.data[..buf.windex], buf.rindex;
      SplitInBuffer(s, pos, pos + n);
      var tmp := IndexOf(s, ':', pos, pos + n);
      if tmp == -1 || tmp == pos {
        MalformedLine(Ctx(), s[pos..pos + n]);
        return Error;
      }
      status := StoreHeader(Trim(s[pos..tmp]), Trim(s[tmp + 1..pos + n]), s[pos..pos + n]);
    }

    /** A header is stored unless a name or value is empty or the name is known. */
    method StoreHeader(key: Bytes, value: Bytes, ghost line: Bytes) returns (status: Status)
      requires SplitHeader(line) == Header(key, value)
      modifies this
      ensures status == HeaderLine(old(Ctx()), line).status && Ctx() == HeaderLine(old(Ctx()), line).ctx
    {
      hide SplitHeader;
      hide Decimal.Stoi;
      if key != [] && value != [] && key !in headers {
        if key == "Content-Length" {
          var v := Decimal.Stoi(value);
          if v.Threw? {
            return Threw;
          }
          bodySize := v.value;
        }
        if key == "Connection" && value == "Keep-Alive" {
          connType := Single;
        }
        headers := headers[key := value];
      }
      return PartSuccess;
    }

    /** `_parse_headers` */
    method ParseHeaders(buf: Buffer) returns (status: Status)
      requires buf.Valid()
      modifies this, buf`rindex
      ensures buf.Valid()
      ensures Parse(status, Ctx(), buf.rindex) ==
              HttpSpec.ParseHeaders(old(Ctx()), old(buf.Written()), old(buf.rindex))
    {
      hide HeaderLine;
      hide HttpSpec.ParseHeaders;
      hide FindLine;
      ghost var s := buf.Written();
      while true
        invariant buf.Valid() && buf.Written() == s
        invariant HttpSpec.ParseHeaders(Ctx(), s, buf.rindex) ==
                  HttpSpec.ParseHeaders(old(Ctx()), s, old(buf.rindex))
        decreases buf.windex - buf.rindex
      {
        M.HeadersTurn(Ctx(), s, buf.rindex);
        FindLineIn(buf, MAX_HEADER_SIZE);
        var size := Min(buf.windex - buf.rindex, MAX_HEADER_SIZE);
        if size == 0 {
          return NoEnoughData;
        }
        var n := buf.FindCrlf(size);
        if n == -1 {
          return if size == MAX_HEADLINE_SIZE then Error else NoEnoughData;
        }
        if n == 0 {
          buf.Retrieve(2);
          return PartSuccess;
        }
        status := ParseHeaderLine(buf, n);
        if !status.PartSuccess? {
          return;
        }
        buf.Retrieve(n + 2);
      }
    }

    /** `_parse_body` */
    method ParseBody(buf: Buffer) returns (status: Status)
      requires buf.Valid()
      modifies this`payloadView
      ensures Parse(status, Ctx(), buf.rindex) == HttpSpec.ParseBody(old(Ctx()), buf.Written(), buf.rindex)
    {
      if AsInt32(buf.windex - buf.rindex) >= bodySize {
        payloadView := View(buf.rindex, buf.rindex + bodySize);
        return PartSuccess;
      }
      return NoEnoughData;
    }

    /** `parse_request` and `parse_response`: the staged parser is the specification, for every
        content of the buffer and every state of the context. */
    method ParseMsg(kind: Kind, buf: Buffer) returns (status: Status)
      requires buf.Valid()
      modifies this, buf`rindex
      ensures buf.Valid()
      ensures Parse(status, Ctx(), buf.rindex) ==
              HttpSpec.ParseMsg(kind, old(Ctx()), old(buf.Written()), old(buf.rindex))
    {
      hide HttpSpec.ParseHeaders;
      hide HttpSpec.ParseFirstLine;
      hide HttpSpec.ParseBody;
      ghost var s := buf.Written();
      while true
        invariant buf.Valid() && buf.Written() == s
        invariant HttpSpec.ParseMsg(kind, Ctx(), s, buf.rindex) ==
                  HttpSpec.ParseMsg(kind, old(Ctx()), s, old(buf.rindex))
        decreases if stage < 3 then 3 - stage else 0, 1
      {
        ghost var c, pos := Ctx(), buf.rindex;
        if stage == 0 {
          if kind.Request? {
            status := ParseRequestLine(buf);
          } else {
            status := ParseResponseLine(buf);
          }
        } else if stage == 1 {
          status := ParseHeaders(buf);
        } else if stage == 2 {
          status := ParseBody(buf);
        } else {
          return Success;
        }
        assert Parse(status, Ctx(), buf.rindex) == Stage(kind, c, s, pos);
        if !status.PartSuccess? {
          return;
        }
        stage := stage + 1;
      }
    }

    // -------------------------------------------------------------- packers

    /** The header lines of both packers, and the payload in the extra lane. */
    method PackHeaders(buf: Buffer)
      requires buf.Valid() && AppendsFit(buf.Value(), HeaderPieces(connType, |payload|))
      modifies buf`data, buf`windex, buf`extraData
      ensures buf.Value() == Packed(old(buf.Value()), HeaderPieces(connType, |payload|), payload)
    {
      hide AppendsFit;
      var a, b, c, d, e := R.ConnLine(connType), R.TYPE_LINE, "Content-Length" + ": ",
                           Decimal.Dec(|payload|), "\r\n" + "\r\n";
      hide R.ConnLine;
      hide Decimal.Dec;
      assert HeaderPieces(connType, |payload|) == [a, b, c, d, e] + [];
      Print5(buf, a, b, c, d, e, []);
      assert buf.Value() == AppendAll(buf.Value(), []);
      buf.AppendExtra(payload);
    }

    /** `pack_request`, whenever the pieces pass `append` one after the other: the request head is
        appended to the data lane, and the payload is the extra lane. */
    method PackRequest(buf: Buffer)
      requires buf.Valid()
      requires AppendsFit(buf.Value(), RequestPieces(service, methodName, connType, |payload|))
      modifies buf`data, buf`windex, buf`extraData
      ensures buf.Value() ==
              Packed(old(buf.Value()), RequestPieces(service, methodName, connType, |payload|), payload)
      ensures Grown(old(buf.Value()), buf.Value(), R.RequestHead(service, methodName, connType, |payload|), payload)
    {
      PackedGrows(buf.Value(), RequestPieces(service, methodName, connType, |payload|), payload);
      RequestPiecesAreHead(service, methodName, connType, |payload|);
      hide Grown;
      hide AppendsFit;
      hide HeaderPieces;
      hide AppendAll;
      Print5(buf, "POST " + "/", service, "/", methodName, " " + "HTTP/1.1" + "\r\n",
             HeaderPieces(connType, |payload|));
      PackHeaders(buf);
    }

    /** `pack_response` */
    method PackResponse(buf: Buffer)
      requires buf.Valid() && AppendsFit(buf.Value(), ResponsePieces(connType, |payload|))
      modifies buf`data, buf`windex, buf`extraData
      ensures buf.Value() == Packed(old(buf.Value()), ResponsePieces(connType, |payload|), payload)
      ensures Grown(old(buf.Value()), buf.Value(), R.ResponseHead(connType, |payload|), payload)
    {
      PackedGrows(buf.Value(), ResponsePieces(connType, |payload|), payload);
      ResponsePiecesAreHead(connType, |payload|);
      hide Grown;
      hide AppendsFit;
      hide HeaderPieces;
      Print(buf, "HTTP/1.1 200 OK" + "\r\n", HeaderPieces(connType, |payload|));
      PackHeaders(buf);
    }
  }

  /** What the packers append, in order. */
  function HeaderPieces(t: ConnType, n: nat): seq<Bytes>
  {
    [R.ConnLine(t), R.TYPE_LINE, "Content-Length" + ": ", Decimal.Dec(n), "\r\n" + "\r\n"]
  }

  function RequestPieces(service: Bytes, methodName: Bytes, t: ConnType, n: nat): seq<Bytes>
  {
    ["POST " + "/", service, "/", methodName, " " + "HTTP/1.1" + "\r\n"] + HeaderPieces(t, n)
  }

  function ResponsePieces(t: ConnType, n: nat): seq<Bytes>
  {
    ["HTTP/1.1 200 OK" + "\r\n"] + HeaderPieces(t, n)
  }

  /** A buffer of 64 bytes or more that is no shorter than the names always takes the pieces. */
  lemma PiecesFit(b: Storage, service: Bytes, methodName: Bytes, t: ConnType, n: nat)
    requires b.Valid() && |b.data| >= 64 && n < TWO_64
    requires |service| <= |b.data| && |methodName| <= |b.data|
    requires |service| <= INT_MAX && |methodName| <= INT_MAX
    ensures AppendsFit(b, RequestPieces(service, methodName, t, n)) && AppendsFit(b, ResponsePieces(t, n))
  {
    hide AppendsFit;
    hide HeaderPieces;
    HeadersAreShort(t, n);
    FiveAreShort("POST " + "/", service, "/", methodName, " " + "HTTP/1.1" + "\r\n",
                 HeaderPieces(t, n), 64, |b.data|);
    assert "HTTP/1.1 200 OK" + "\r\n" == "HTTP/1.1 200 OK\r\n";
    ShortAppendsFit(b, RequestPieces(service, methodName, t, n));
    ShortAppendsFit(b, ResponsePieces(t, n));
  }

  lemma HeadersAreShort(t: ConnType, n: nat)
    requires n < TWO_64
    ensures ShortPieces(HeaderPieces(t, n), 64)
  {
    R.DecBelow64Bits(n);
    PiecesAreShort(t);
    hide Decimal.Dec;
    hide R.ConnLine;
    FiveAreShort(R.ConnLine(t), R.TYPE_LINE, "Content-Length" + ": ", Decimal.Dec(n), "\r\n" + "\r\n", [], 64, 64);
    assert HeaderPieces(t, n) + [] == HeaderPieces(t, n);
  }

  lemma FiveAreShort(a: Bytes, b: Bytes, c: Bytes, d: Bytes, e: Bytes, rest: seq<Bytes>, n: nat, size: nat)
    requires |a| <= size && |b| <= size && |c| <= size && |d| <= size && |e| <= size
    requires |a| <= INT_MAX && |b| <= INT_MAX && |c| <= INT_MAX && |d| <= INT_MAX && |e| <= INT_MAX
    requires n <= size && ShortPieces(rest, n)
    ensures ShortPieces([a, b, c, d, e] + rest, size)
  {
  }

  lemma RequestTextPieces(service: Bytes, methodName: Bytes)
    ensures "POST " + "/" + (service + ("/" + (methodName + (" " + "HTTP/1.1" + "\r\n")))) ==
            R.RequestText(service, methodName) + "\r\n"
  {
    var p, u, v, z := "POST ", "/" + service + "/" + methodName, "HTTP/1.1", "\r\n";
    assert p + "/" + (service + ("/" + (methodName + (" " + v + z)))) == p + u + (" " + v + z);
    assert p + u + (" " + v + z) == p + u + " " + v + z;
  }

  /** The pieces make the head. */
  lemma HeaderPiecesAreHead(t: ConnType, n: nat)
    ensures Concat(HeaderPieces(t, n)) == R.PackedHeaders(t, n)
  {
    var a, b, c, d, e := R.ConnLine(t), R.TYPE_LINE, "Content-Length" + ": ", Decimal.Dec(n), "\r\n" + "\r\n";
    ConcatFive(a, b, c, d, e, []);
    hide R.ConnLine;
    hide Decimal.Dec;
    assert HeaderPieces(t, n) == [a, b, c, d, e] + [];
    assert a + (b + (c + (d + (e + [])))) == a + b + c + d + e;
  }

  lemma ConcatFive(a: Bytes, b: Bytes, c: Bytes, d: Bytes, e: Bytes, rest: seq<Bytes>)
    ensures Concat([a, b, c, d, e] + rest) == a + (b + (c + (d + (e + Concat(rest)))))
  {
    ConcatOne(a, [b, c, d, e] + rest);
    ConcatOne(b, [c, d, e] + rest);
    ConcatOne(c, [d, e] + rest);
    ConcatOne(d, [e] + rest);
    ConcatOne(e, rest);
    assert [a, b, c, d, e] + rest == [a] + ([b, c, d, e] + rest);
    assert [b, c, d, e] + rest == [b] + ([c, d, e] + rest);
    assert [c, d, e] + rest == [c] + ([d, e] + rest);
    assert [d, e] + rest == [d] + ([e] + rest);
  }

  lemma RequestPiecesAreHead(service: Bytes, methodName: Bytes, t: ConnType, n: nat)
    ensures Concat(RequestPieces(service, methodName, t, n)) == R.RequestHead(service, methodName, t, n)
  {
    HeaderPiecesAreHead(t, n);
    hide HeaderPieces;
    hide R.PackedHeaders;
    var a, c, e, h := "POST " + "/", "/", " " + "HTTP/1.1" + "\r\n", R.PackedHeaders(t, n);
    ConcatFive(a, service, c, methodName, e, HeaderPieces(t, n));
    RequestTextPieces(service, methodName);
    assert a + (service + (c + (methodName + (e + h)))) == a + (service + (c + (methodName + e))) + h;
  }

  lemma ResponsePiecesAreHead(t: ConnType, n: nat)
    ensures Concat(ResponsePieces(t, n)) == R.ResponseHead(t, n)
  {
    HeaderPiecesAreHead(t, n);
    hide HeaderPieces;
    ConcatOne("HTTP/1.1 200 OK" + "\r\n", HeaderPieces(t, n));
  }

  /** The name and value of a line, by buffer indices. */
  lemma SplitInBuffer(s: Bytes, pos: nat, e: nat)
    requires pos <= e <= |s|
    ensures var i := IndexOf(s, ':', pos, e);
            SplitHeader(s[pos..e]) ==
            if i == -1 || i == pos then Malformed else Header(Trim(s[pos..i]), Trim(s[i + 1..e]))
  {
    hide Trim;
    IndexOfShift(s, pos, e, ':', 0, e - pos);
    hide IndexOf;
    var line := s[pos..e];
    var i := IndexOf(line, ':', 0, e - pos);
    if i > 0 {
      SliceOfSlice(s, pos, e, 0, i);
      SliceOfSlice(s, pos, e, i + 1, e - pos);
      assert line[..i] == line[0..i] && line[i + 1..] == line[i + 1..e - pos];
    }
  }

  lemma MalformedLine(c: HttpSpec.Ctx, line: Bytes)
    requires SplitHeader(line).Malformed?
    ensures HeaderLine(c, line) == Parse(Error, c, 0)
  {
  }
}
