/** What an accepted HTTP head means: an independent description of the request line and of the
    header block (a subset of sections 5.1 and 4.2 of RFC 2616), proved to be exactly what the
    staged parser accepts and stores. */
module HttpMeaning {
  import opened Bytes
  import opened Protocol
  import opened HttpSpec
  import Decimal

  // ---------------------------------------------------------------- methods and lines

  /** The methods by their number in protocols/protocol.proto. */
  function EnumName(value: nat): Bytes
    requires value <= 8
  {
    match value
    case 0 => "GET" case 1 => "POST" case 2 => "HEAD" case 3 => "OPTIONS" case 4 => "PUT"
    case 5 => "PATCH" case 6 => "DELETE" case 7 => "TRACE" case _ => "CONNECT"
  }

  /** A line that starts with a method of the enumeration and a blank is matched to its number, except
      for the last one, which is not tried. */
  lemma MethodsAreTheEnum(line: Bytes, value: nat)
    requires value <= 8 && EnumName(value) + " " <= line
    ensures MatchMethod(line, 0) == if value < 8 then value else -1
  {
    if value < 8 {
      assert METHODS[value] == EnumName(value);
      MatchesMethod(line, value);
    } else {
      var w := EnumName(value) + " ";
      assert line[0] == w[0] == 'C';
      forall j | 0 <= j < |METHODS| ensures !(METHODS[j] <= line) {
        assert METHODS[j][0] != 'C';
      }
    }
  }

  /** What the search for a line end gives, on any bytes: the first CRLF if it lies inside the first
      65536 bytes; an error if that many bytes are there without one; and otherwise a wait. */
  lemma LineSearch(s: Bytes, pos: nat, e: nat)
    requires pos <= |s| && pos <= e
    ensures FindLine(s, pos, MAX_HEADLINE_SIZE) == FindLine(s, pos, MAX_HEADER_SIZE)
    ensures FindLine(s, pos, MAX_HEADER_SIZE) == LineAt(e) <==>
            CrlfAt(s, e) && e + 2 <= pos + 65536 && forall i :: pos <= i < e ==> !CrlfAt(s, i)
    ensures FindLine(s, pos, MAX_HEADER_SIZE) == NoLine(Error) <==>
            |s| - pos >= 65536 && forall i :: pos <= i && i + 2 <= pos + 65536 ==> !CrlfAt(s, i)
    ensures FindLine(s, pos, MAX_HEADER_SIZE) == NoLine(NoEnoughData) <==>
            |s| - pos < 65536 && forall i :: pos <= i && i + 2 <= |s| ==> !CrlfAt(s, i)
  {
    var size := Min(|s| - pos, 65536);
    if size > 0 {
      var f := FindCrlf(s, pos, pos + size);
    }
  }

  // ---------------------------------------------------------------- request line

  /** METHOD SP url SP version */
  predicate Shape(line: Bytes, m: nat, url: Bytes, version: Bytes)
  {
    && m < |METHODS|
    && line == METHODS[m] + " " + url + " " + version
    && ' ' !in url && ' ' !in version
    && url != [] && url[0] == '/'
  }

  /** The path is `/service/method` with no slash in `service`; a path with one slash only names
      nothing. */
  predicate Names(url: Bytes, service: Bytes, methodName: Bytes)
    requires url != []
  {
    if '/' in url[1..] then url == "/" + service + "/" + methodName && '/' !in service
    else service == [] && methodName == []
  }

  /** `SplitPath` undoes joining with slashes, and fails exactly when there is no second slash. */
  lemma PathMeaning(url: Bytes)
    requires url != [] && url[0] == '/'
    ensures SplitPath(url).Path? <==> '/' in url[1..]
    ensures var p := SplitPath(url);
            p.Path? ==> url == "/" + p.service + "/" + p.methodName && '/' !in p.service
  {
    var sl := IndexOf(url, '/', 1, |url|);
    if sl != -1 {
      assert url[1..][sl - 1] == '/';
      assert url == [url[0]] + url[1..sl] + [url[sl]] + url[sl + 1..];
    }
  }

  /** The three views of a request line that lies in `[base, e)`, with its url at `u`. */
  predicate Views(c: Ctx, u: nat, url: Bytes, version: Bytes, base: nat, e: nat)
  {
    && c.url == View(u, u + |url|)
    && c.version == View(e - |version|, e)
    && c.requestLine == View(base, e)
  }

  lemma TargetSound(c: Ctx, line: Bytes, o: nat, base: nat) returns (url: Bytes, version: Bytes)
    requires o <= |line| && Target(c, line, o, base).status.PartSuccess?
    requires c.service == [] && c.methodName == []
    ensures line[o..] == " " + url + " " + version
    ensures ' ' !in url && ' ' !in version && url != [] && url[0] == '/'
    ensures var r := Target(c, line, o, base).ctx;
            && Names(url, r.service, r.methodName) && r.httpMethod == c.httpMethod
            && Views(r, base + o + 1, url, version, base, base + |line|)
  {
    hide IndexOf;
    hide SplitPath;
    var sp := IndexOf(line, ' ', o + 1, |line|);
    url, version := line[o + 1..sp], line[sp + 1..];
    assert line[o..] == [line[o]] + url + [line[sp]] + version;
    PathMeaning(url);
  }

  /** An accepted request line has the shape, and the service and method are those of its path. */
  lemma RequestLineSound(c: Ctx, line: Bytes, base: nat) returns (url: Bytes, version: Bytes)
    requires c.httpMethod == -1 && c.service == [] && c.methodName == []
    requires RequestLine(c, line, base).status.PartSuccess?
    ensures var r := RequestLine(c, line, base).ctx;
            && r.httpMethod >= 0 && Shape(line, r.httpMethod, url, version)
            && Names(url, r.service, r.methodName)
            && Views(r, base + |METHODS[r.httpMethod]| + 1, url, version, base, base + |line|)
  {
    hide Target;
    var m := MatchMethod(line, 0);
    var o := |METHODS[m]|;
    url, version := TargetSound(c.(httpMethod := m), line, o, base);
    assert line == line[..o] + line[o..];
  }

  /** No method name is a prefix of a line that starts with another one and a blank. */
  lemma MatchesMethod(line: Bytes, m: nat)
    requires m < |METHODS| && METHODS[m] + " " <= line
    ensures MatchMethod(line, 0) == m
  {
    var w := METHODS[m] + " ";
    assert METHODS[m] <= line;
    forall j | 0 <= j < m ensures !(METHODS[j] <= line) {
      assert line[0] == w[0] && line[1] == w[1];
      assert METHODS[j][0] != METHODS[m][0] || METHODS[j][1] != METHODS[m][1];
    }
  }

  lemma TargetBlanks(line: Bytes, o: nat, url: Bytes, version: Bytes)
    requires o <= |line| && line[o..] == " " + url + " " + version
    requires ' ' !in url && ' ' !in version
    ensures o < |line| && line[o] == ' '
    ensures var sp := o + 1 + |url|;
            && sp < |line| && IndexOf(line, ' ', o + 1, |line|) == sp
            && IndexOf(line, ' ', sp + 1, |line|) == -1
            && line[o + 1..sp] == url
  {
    var head, w, sp := line[..o], line[o..], o + 1 + |url|;
    assert line == head + w;
    assert w == [' '] + url + [' '] + version;
    assert line == (head + [' ']) + url + ([' '] + version);
    assert line == (head + [' '] + url + [' ']) + version + [];
    IndexBehind(head + [' '], url, [' '] + version, ' ');
    IndexBehind(head + [' '] + url + [' '], version, [], ' ');
    hide IndexOf;
    assert line[o + 1..sp] == url;
  }

  /** A character that a part does not contain is found right behind the part, if it is there. */
  lemma IndexBehind(a: Bytes, part: Bytes, z: Bytes, c: char)
    requires c !in part
    ensures var s, lo, hi := a + part + z, |a|, |a| + |part|;
            && IndexOf(s, c, lo, hi) == -1
            && (z != [] && z[0] == c ==> IndexOf(s, c, lo, |s|) == hi)
  {
    var s, lo, hi := a + part + z, |a|, |a| + |part|;
    forall i | lo <= i < hi ensures s[i] != c {
      assert s[i] == part[i - lo];
    }
    var r := IndexOf(s, c, lo, hi);
    if z != [] && z[0] == c {
      assert s[hi] == c;
    }
  }

  lemma TargetComplete(c: Ctx, line: Bytes, o: nat, base: nat, url: Bytes, version: Bytes)
    requires o <= |line| && line[o..] == " " + url + " " + version
    requires ' ' !in url && ' ' !in version && url != [] && url[0] == '/'
    ensures Target(c, line, o, base).status.PartSuccess?
    ensures var r := Target(c, line, o, base).ctx;
            && ('/' in url[1..] ==> url == "/" + r.service + "/" + r.methodName && '/' !in r.service)
            && ('/' !in url[1..] ==> r.service == c.service && r.methodName == c.methodName)
            && r.headers == c.headers && r.bodySize == c.bodySize && r.connType == c.connType
            && r.httpMethod == c.httpMethod
  {
    hide IndexOf;
    hide SplitPath;
    TargetBlanks(line, o, url, version);
    assert line[o + 1] == url[0];
    PathMeaning(url);
  }

  /** Every line of the shape is accepted, and gets the method, the service and the method name
      that the shape determines. */
  lemma RequestLineComplete(c: Ctx, line: Bytes, base: nat, m: nat, url: Bytes, version: Bytes)
    requires Shape(line, m, url, version)
    ensures RequestLine(c, line, base).status.PartSuccess?
    ensures var r := RequestLine(c, line, base).ctx;
            && r.httpMethod == m
            && ('/' in url[1..] ==> url == "/" + r.service + "/" + r.methodName && '/' !in r.service)
            && ('/' !in url[1..] ==> r.service == c.service && r.methodName == c.methodName)
            && r.headers == c.headers && r.bodySize == c.bodySize && r.connType == c.connType
  {
    hide Target;
    hide MatchMethod;
    assert METHODS[m] + " " <= line;
    MatchesMethod(line, m);
    var o := |METHODS[m]|;
    assert line[o..] == " " + url + " " + version;
    TargetComplete(c.(httpMethod := m), line, o, base, url, version);
  }

  // ---------------------------------------------------------------- one header line

  predicate Blanks(s: Bytes) { forall i :: 0 <= i < |s| ==> s[i] == ' ' }

  /** Empty, or without a blank at either end. */
  predicate Bare(s: Bytes) { s != [] ==> s[0] != ' ' && s[|s| - 1] != ' ' }

  /** `Trim` strips blanks only, and all of them: it leaves the one bare middle between blanks. */
  lemma TrimExactly(s: Bytes, m: Bytes)
    ensures Trim(s) == m <==> exists a: Bytes, z: Bytes :: Between(s, a, m, z)
  {
    if Trim(s) == m {
      var a := LeftTrimmed(s);
      var z := RightTrimmed(TrimLeft(s));
      assert a + (m + z) == a + m + z;
      assert Between(s, a, m, z);
    }
    if exists a: Bytes, z: Bytes :: Between(s, a, m, z) {
      var a: Bytes, z: Bytes :| Between(s, a, m, z);
      assert s == a + (m + z);
      TrimLeftOf(a, m, z);
      TrimRightOf(m, z);
    }
  }

  predicate Between(s: Bytes, a: Bytes, m: Bytes, z: Bytes)
  {
    s == a + m + z && Blanks(a) && Blanks(z) && Bare(m)
  }

  lemma {:induction false} LeftTrimmed(s: Bytes) returns (a: Bytes)
    ensures s == a + TrimLeft(s) && Blanks(a)
    ensures TrimLeft(s) != [] ==> TrimLeft(s)[0] != ' '
  {
    if s != [] && s[0] == ' ' {
      a := LeftTrimmed(s[1..]);
      a := [s[0]] + a;
    } else {
      a := [];
    }
  }

  lemma {:induction false} RightTrimmed(s: Bytes) returns (z: Bytes)
    requires s != [] ==> s[0] != ' '
    ensures s == TrimRight(s) + z && Blanks(z) && Bare(TrimRight(s))
  {
    if s != [] && s[|s| - 1] == ' ' {
      z := RightTrimmed(s[..|s| - 1]);
      z := z + [s[|s| - 1]];
    } else {
      z := [];
    }
  }

  lemma {:induction false} TrimLeftOf(a: Bytes, m: Bytes, z: Bytes)
    requires Blanks(a) && Blanks(z) && Bare(m)
    ensures TrimLeft(a + (m + z)) == if m == [] then [] else m + z
    decreases |a| + |z|
  {
    if a != [] {
      TrimLeftOf(a[1..], m, z);
      assert (a + (m + z))[1..] == a[1..] + (m + z);
    } else if m == [] && z != [] {
      TrimLeftOf([], m, z[1..]);
      assert a + (m + z) == z && [] + ([] + z[1..]) == z[1..];
    } else {
      assert a + (m + z) == m + z;
    }
  }

  lemma {:induction false} TrimRightOf(m: Bytes, z: Bytes)
    requires Blanks(z) && Bare(m)
    ensures TrimRight(if m == [] then [] else m + z) == m
  {
    if m != [] && z != [] {
      TrimRightOf(m, z[..|z| - 1]);
      assert (m + z)[..|m + z| - 1] == m + z[..|z| - 1];
    } else if m != [] {
      assert m + z == m;
    }
  }

  /** A header line: a name part without a colon and not empty, a colon, and a value part. */
  predicate Parts(line: Bytes, name: Bytes, value: Bytes)
  {
    line == name + ":" + value && ':' !in name && name != []
  }

  /** A line is malformed if and only if it has no such parts, and otherwise it is split into them,
      each without the blanks around it. */
  lemma SplitExactly(line: Bytes)
    ensures SplitHeader(line).Malformed? <==> ':' !in line || line[0] == ':'
    ensures forall name, value :: Parts(line, name, value) ==> SplitHeader(line) == Header(Trim(name), Trim(value))
  {
    hide Trim;
    var i := IndexOf(line, ':', 0, |line|);
    forall name, value | Parts(line, name, value) ensures SplitHeader(line) == Header(Trim(name), Trim(value)) {
      assert line[|name|] == ':';
      assert forall j :: 0 <= j < |name| ==> line[j] == name[j];
      assert i == |name|;
      assert line[..i] == name && line[i + 1..] == value;
    }
  }

  // ---------------------------------------------------------------- header block

  /** The bytes of a header block: the lines, each with CRLF, and an empty line. */
  function Block(lines: seq<Bytes>): Bytes
  {
    if lines == [] then "\r\n" else lines[0] + "\r\n" + Block(lines[1..])
  }

  /** A line that the header loop takes as one line. */
  predicate Line(line: Bytes)
  {
    line != [] && NoCrlf(line) && |line| + 2 <= MAX_HEADER_SIZE
  }

  predicate Lines(lines: seq<Bytes>) { forall i :: 0 <= i < |lines| ==> Line(lines[i]) }

  /** The effect of header lines one after the other. */
  function Fold(c: Ctx, lines: seq<Bytes>): Parse
    decreases |lines|
  {
    if lines == [] then Parse(PartSuccess, c, 0) else
    var h := HeaderLine(c, lines[0]);
    if h.status.PartSuccess? then Fold(h.ctx, lines[1..]) else h
  }

  lemma LineFound(s: Bytes, pos: nat, limit: nat, line: Bytes)
    requires pos <= |s| && line + "\r\n" <= s[pos..]
    requires NoCrlf(line) && |line| + 2 <= limit
    ensures FindLine(s, pos, limit) == LineAt(pos + |line|)
    ensures s[pos..pos + |line|] == line
    ensures s[pos + |line| + 2..] == s[pos..][|line| + 2..]
  {
    var size := Min(|s| - pos, limit);
    assert s[pos..pos + |line| + 2] == s[pos..][..|line| + 2] == line + "\r\n";
    FindCrlfOfLine(s, pos, pos + size, line);
    assert s[pos..pos + |line|] == s[pos..pos + |line| + 2][..|line|];
  }

  /** One turn of the header loop. */
  lemma HeadersTurn(c: Ctx, s: Bytes, pos: nat)
    requires pos <= |s|
    ensures var l := FindLine(s, pos, MAX_HEADER_SIZE);
            var r := ParseHeaders(c, s, pos);
            if l.NoLine? then r == Parse(l.status, c, pos)
            else if l.end == pos then r == Parse(PartSuccess, c, pos + 2)
            else var h := HeaderLine(c, s[pos..l.end]);
              if h.status.PartSuccess? then r == ParseHeaders(h.ctx, s, l.end + 2)
              else r == Parse(h.status, c, pos) && h.ctx == c
  {
    hide HeaderLine;
    hide FindLine;
    var l := FindLine(s, pos, MAX_HEADER_SIZE);
    if l.LineAt? && l.end != pos {
      FailedLine(c, s[pos..l.end]);
    }
  }

  lemma FailedLine(c: Ctx, line: Bytes)
    ensures !HeaderLine(c, line).status.PartSuccess? ==> HeaderLine(c, line).ctx == c
  {
  }

  lemma {:induction false} HeadersAnswer(c: Ctx, s: Bytes, pos: nat)
    requires pos <= |s|
    ensures ParseHeaders(c, s, pos).status in {NoEnoughData, Error, Threw, PartSuccess}
    decreases |s| - pos
  {
    hide FindLine;
    hide HeaderLine;
    match FindLine(s, pos, MAX_HEADER_SIZE)
    case NoLine(_) =>
    case LineAt(e) =>
      if e != pos && HeaderLine(c, s[pos..e]).status.PartSuccess? {
        HeadersAnswer(HeaderLine(c, s[pos..e]).ctx, s, e + 2);
      }
  }

  /** A block is parsed as the fold over its lines, and exactly the block is consumed. */
  lemma {:induction false} HeadersOfLines(c: Ctx, lines: seq<Bytes>, s: Bytes, pos: nat)
    requires Lines(lines) && pos <= |s| && Block(lines) <= s[pos..]
    ensures var f := Fold(c, lines);
            if f.status.PartSuccess?
            then ParseHeaders(c, s, pos) == Parse(PartSuccess, f.ctx, pos + |Block(lines)|)
            else ParseHeaders(c, s, pos).status == f.status
    decreases |lines|
  {
    hide HeaderLine;
    hide FindLine;
    if lines == [] {
      assert [] + "\r\n" == "\r\n";
      LineFound(s, pos, MAX_HEADER_SIZE, []);
    } else {
      var line := lines[0];
      assert line + "\r\n" <= Block(lines);
      LineFound(s, pos, MAX_HEADER_SIZE, line);
      assert Block(lines)[|line| + 2..] == Block(lines[1..]);
      var h := HeaderLine(c, line);
      if h.status.PartSuccess? {
        HeadersOfLines(h.ctx, lines[1..], s, pos + |line| + 2);
      }
    }
  }

  lemma FoundLine(s: Bytes, pos: nat, limit: nat)
    requires pos <= |s| && limit > 0 && FindLine(s, pos, limit).LineAt?
    ensures var e := FindLine(s, pos, limit).end;
            NoCrlf(s[pos..e]) && e - pos + 2 <= limit && s[pos..e + 2] == s[pos..e] + "\r\n"
  {
    var e := FindLine(s, pos, limit).end;
    forall i | 0 <= i < e - pos ensures !CrlfAt(s[pos..e], i) {
      assert !CrlfAt(s, pos + i);
    }
  }

  /** What was accepted as headers is a block, and the context is the fold over its lines. */
  lemma {:induction false} LinesOfHeaders(c: Ctx, s: Bytes, pos: nat) returns (lines: seq<Bytes>)
    requires pos <= |s| && ParseHeaders(c, s, pos).status.PartSuccess?
    ensures Lines(lines)
    ensures s[pos..ParseHeaders(c, s, pos).pos] == Block(lines)
    ensures Fold(c, lines) == Parse(PartSuccess, ParseHeaders(c, s, pos).ctx, 0)
    decreases |s| - pos
  {
    hide HeaderLine;
    hide FindLine;
    var l := FindLine(s, pos, MAX_HEADER_SIZE);
    FoundLine(s, pos, MAX_HEADER_SIZE);
    if l.end == pos {
      lines := [];
      assert s[pos..pos] + "\r\n" == "\r\n";
    } else {
      var line, next := s[pos..l.end], l.end + 2;
      var h := HeaderLine(c, line);
      var rest := LinesOfHeaders(h.ctx, s, next);
      lines := [line] + rest;
      var end := ParseHeaders(c, s, pos).pos;
      assert end == ParseHeaders(h.ctx, s, next).pos;
      MoreLines(c, line, rest);
      hide ParseHeaders;
      hide NoCrlf;
      assert s[pos..end] == s[pos..next] + s[next..end];
    }
  }

  /** One line in front of others. */
  lemma MoreLines(c: Ctx, line: Bytes, rest: seq<Bytes>)
    requires HeaderLine(c, line).status.PartSuccess?
    ensures Block([line] + rest) == line + "\r\n" + Block(rest)
    ensures Fold(c, [line] + rest) == Fold(HeaderLine(c, line).ctx, rest)
  {
    hide HeaderLine;
    assert ([line] + rest)[1..] == rest;
  }

  /** The first non-empty value given to a name, or the empty string. */
  function FirstValue(lines: seq<Bytes>, key: Bytes): Bytes
  {
    if lines == [] then [] else
    var h := SplitHeader(lines[0]);
    if h.Header? && h.key == key && h.value != [] then h.value else FirstValue(lines[1..], key)
  }

  /** Each name has its first non-empty value. */
  ghost predicate FirstWins(lines: seq<Bytes>, headers: map<Bytes, Bytes>)
  {
    && (forall k :: k in headers <==> k != [] && FirstValue(lines, k) != [])
    && (forall k :: k in headers ==> headers[k] == FirstValue(lines, k))
  }

  /** `c` is what header lines make of `c0`: the map is first-non-empty-value-wins, and body size
      and connection type are fixed by two of its entries. */
  ghost predicate Holds(c0: Ctx, lines: seq<Bytes>, c: Ctx)
  {
    && c == c0.(headers := c.headers, bodySize := c.bodySize, connType := c.connType)
    && FirstWins(lines, c.headers)
    && (var v := FirstValue(lines, "Content-Length");
        if v == [] then c.bodySize == c0.bodySize
        else Decimal.Stoi(v) == Decimal.Number(c.bodySize))
    && c.connType == (if FirstValue(lines, "Connection") == "Keep-Alive" then Single else c0.connType)
  }

  lemma {:induction false} FirstValueOfMore(lines: seq<Bytes>, line: Bytes, key: Bytes)
    ensures var v := FirstValue(lines, key);
            var h := SplitHeader(line);
            FirstValue(lines + [line], key) ==
            if v != [] then v else if h.Header? && h.key == key then h.value else []
  {
    hide SplitHeader;
    if lines == [] {
      assert [] + [line] == [line];
      assert [line][1..] == [];
    } else {
      FirstValueOfMore(lines[1..], line, key);
      assert (lines + [line])[1..] == lines[1..] + [line];
    }
  }

  /** The header map after one more line. */
  function Stored(headers: map<Bytes, Bytes>, h: Header): map<Bytes, Bytes>
  {
    if h.Header? && h.key != [] && h.value != [] && h.key !in headers then headers[h.key := h.value] else headers
  }

  lemma FirstWinsStep(lines: seq<Bytes>, headers: map<Bytes, Bytes>, line: Bytes)
    requires FirstWins(lines, headers)
    ensures FirstWins(lines + [line], Stored(headers, SplitHeader(line)))
  {
    hide SplitHeader;
    hide FirstValue;
    var h := SplitHeader(line);
    var more, r := lines + [line], Stored(headers, h);
    forall k ensures k in r <==> k != [] && FirstValue(more, k) != []
             ensures k in r ==> r[k] == FirstValue(more, k)
    {
      FirstValueOfMore(lines, line, k);
    }
  }

  /** What one accepted line does, by its name. */
  lemma LineStores(c: Ctx, line: Bytes)
    requires HeaderLine(c, line).status.PartSuccess?
    ensures var h, r := SplitHeader(line), HeaderLine(c, line).ctx;
            var first := h.Header? && h.key != [] && h.value != [] && h.key !in c.headers;
            && r == c.(headers := r.headers, bodySize := r.bodySize, connType := r.connType)
            && r.headers == Stored(c.headers, h)
            && (if first && h.key == "Content-Length" then Decimal.Stoi(h.value) == Decimal.Number(r.bodySize)
                else r.bodySize == c.bodySize)
            && (if first && h.key == "Connection" && h.value == "Keep-Alive" then r.connType.Single?
                else r.connType == c.connType)
  {
    hide SplitHeader;
    hide Decimal.Stoi;
  }

  lemma HoldsStep(c0: Ctx, lines: seq<Bytes>, c: Ctx, line: Bytes)
    requires Holds(c0, lines, c) && HeaderLine(c, line).status.PartSuccess?
    ensures Holds(c0, lines + [line], HeaderLine(c, line).ctx)
  {
    hide SplitHeader;
    hide Decimal.Stoi;
    LineStores(c, line);
    FirstWinsStep(lines, c.headers, line);
    FirstValueOfMore(lines, line, "Content-Length");
    FirstValueOfMore(lines, line, "Connection");
    hide HeaderLine;
    hide FirstValue;
    hide Stored;
  }

  lemma FoldStep(c: Ctx, lines: seq<Bytes>)
    requires lines != [] && Fold(c, lines).status.PartSuccess?
    ensures var h := HeaderLine(c, lines[0]); h.status.PartSuccess? && Fold(c, lines) == Fold(h.ctx, lines[1..])
  {
    hide HeaderLine;
  }

  lemma {:induction false} FoldHolds(c0: Ctx, done: seq<Bytes>, c: Ctx, lines: seq<Bytes>)
    requires Holds(c0, done, c) && Fold(c, lines).status.PartSuccess?
    ensures Holds(c0, done + lines, Fold(c, lines).ctx)
    decreases |lines|
  {
    hide HeaderLine;
    hide Holds;
    if lines == [] {
      assert done + [] == done;
    } else {
      FoldStep(c, lines);
      hide Fold;
      HoldsStep(c0, done, c, lines[0]);
      FoldHolds(c0, done + [lines[0]], HeaderLine(c, lines[0]).ctx, lines[1..]);
      assert done + [lines[0]] + lines[1..] == done + lines;
    }
  }

  /** The meaning of an accepted header block, for every stream and every starting point. */
  lemma HeadersMeaning(c: Ctx, s: Bytes, pos: nat) returns (lines: seq<Bytes>)
    requires pos <= |s| && c.headers == map[]
    requires ParseHeaders(c, s, pos).status.PartSuccess?
    ensures var r := ParseHeaders(c, s, pos);
            Lines(lines) && s[pos..r.pos] == Block(lines) && Holds(c, lines, r.ctx)
  {
    lines := LinesOfHeaders(c, s, pos);
    FoldHolds(c, [], c, lines);
    assert [] + lines == lines;
  }
}
