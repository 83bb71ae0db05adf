/** The HTTP/1.1 exchange that opens the backend stream: the POST request the
    device writes (wifi.c:189-201) and the hand-written parse of the first
    response chunk (wifi.c:254-281). */
module Http {
  import opened Types
  import opened CText

  const CRLF: string := "\r\n"
  /** The blank line between the response header and its body. */
  const BLANK_LINE: string := "\r\n\r\n"
  /** What `strncmp(.., "HTTP/1.1 ", 8)` compares: eight bytes, no space. */
  const VERSION: string := "HTTP/1.1"
  /** `&pParse[9]`: where `atoi` starts reading the status code. */
  const STATUS_OFFSET: nat := 9
  const STATUS_OK: int := 200
  /** `strlen(pBody) < 10` rejects the response. */
  const MIN_BODY_STRLEN: nat := 10

  /** What `reqParamsFromUrl` makes of the backend URL. */
  datatype Endpoint = Endpoint(
    host: CString, path: CString, query: CString, auth: Option<CString>,
    https: bool, port: uint16)

  /** `FF_PROGRAM` and `FF_BUILDVER`, which make up the User-Agent. */
  datatype Build = Build(program: CString, version: CString)

  /** The credential printed after `Basic`: empty when the URL has none. */
  function AuthText(ep: Endpoint): CString
  {
    if ep.auth.Some? then ep.auth.value else ""
  }

  /** One header line, `name: value` and its line ending. */
  function HeaderLine(name: string, value: CString): (r: string)
  {
    name + ": " + value + CRLF
  }

  function RequestLine(ep: Endpoint): (r: string)
  {
    "POST /" + ep.path + " HTTP/1.1" + CRLF
  }

  function HostLine(ep: Endpoint): (r: string)
  {
    HeaderLine("Host", ep.host)
  }

  function AuthorizationLine(ep: Endpoint): (r: string)
  {
    HeaderLine("Authorization", "Basic " + AuthText(ep))
  }

  function UserAgentLine(build: Build): (r: string)
  {
    HeaderLine("User-Agent", build.program + "/" + build.version)
  }

  function ContentLengthLine(ep: Endpoint): (r: string)
  {
    HeaderLine("Content-Length", Decimal(|ep.query|))
  }

  /** Request line, Host, Authorization and User-Agent. */
  function RequestFront(ep: Endpoint, build: Build): (r: string)
  {
    (RequestLine(ep) + HostLine(ep)) + (AuthorizationLine(ep) + UserAgentLine(build))
  }

  /** Content-Length, the empty line, and the query as the body. */
  function RequestTail(ep: Endpoint): (r: string)
  {
    ContentLengthLine(ep) + (CRLF + ep.query)
  }

  /** The bytes handed to `netconn_write`: request line, four header lines,
      an empty line, then the query parameters as the body. */
  function Request(ep: Endpoint, build: Build): string
  {
    RequestFront(ep, build) + RequestTail(ep)
  }

  /** The request starts with its request line and ends with the empty line's
      line ending followed by the query. */
  lemma RequestFraming(ep: Endpoint, build: Build)
    ensures var r := Request(ep, build);
      && |RequestLine(ep)| <= |r| && r[..|RequestLine(ep)|] == RequestLine(ep)
      && |ep.query| + 2 <= |r| && r[|r| - |ep.query| - 2..] == CRLF + ep.query
  {
    var front, tail := RequestFront(ep, build), RequestTail(ep);
    TakeAppend(front, tail, |RequestLine(ep)|);
    TakeAppend(RequestLine(ep) + HostLine(ep), AuthorizationLine(ep) + UserAgentLine(build),
               |RequestLine(ep)|);
    DropAppend(front, tail, |front| + |tail| - |ep.query| - 2);
    DropAppend(ContentLengthLine(ep), CRLF + ep.query, |tail| - |ep.query| - 2);
  }

  /** Every piece of the request is a C string, so `strlen` of the buffer is
      the whole request and all of it is written. */
  lemma RequestIsCString(ep: Endpoint, build: Build)
    ensures '\0' !in Request(ep, build)
  {
    var dec := Decimal(|ep.query|);
    NulFreeAppend(build.program, "/");
    NulFreeAppend(build.program + "/", build.version);
    NulFreeAppend("Basic ", AuthText(ep));
    assert '\0' !in RequestLine(ep);
    assert '\0' !in HostLine(ep);
    assert '\0' !in AuthorizationLine(ep);
    assert '\0' !in UserAgentLine(build);
    assert '\0' !in ContentLengthLine(ep);
    NulFreeAppend(RequestLine(ep), HostLine(ep));
    NulFreeAppend(AuthorizationLine(ep), UserAgentLine(build));
    NulFreeAppend(RequestLine(ep) + HostLine(ep), AuthorizationLine(ep) + UserAgentLine(build));
    NulFreeAppend(CRLF, ep.query);
    NulFreeAppend(ContentLengthLine(ep), CRLF + ep.query);
    NulFreeAppend(RequestFront(ep, build), RequestTail(ep));
  }

  lemma HeaderLineEndsLine(name: string, value: CString)
    ensures var h := HeaderLine(name, value); |h| >= 2 && h[|h| - 2..] == CRLF
  {
    DropAppend(name + ": " + value, CRLF, |HeaderLine(name, value)| - 2);
  }

  lemma LineThenEmptyLine(line: string, q: string)
    requires |line| >= 2 && line[|line| - 2..] == CRLF
    ensures (line + (CRLF + q))[|line| - 2..] == BLANK_LINE + q
  {
    var pre := line[..|line| - 2];
    assert line == pre + CRLF;
    assert line + (CRLF + q) == pre + (CRLF + (CRLF + q));
    DropAppend(pre, CRLF + (CRLF + q), |line| - 2);
  }

  /** The request ends its header with an empty line (the last header's line
      ending followed by another one) right before the query. */
  lemma RequestEndsWithBlankLine(ep: Endpoint, build: Build)
    ensures var r := Request(ep, build);
      |ep.query| + 4 <= |r| && r[|r| - |ep.query| - 4..] == BLANK_LINE + ep.query
  {
    var front, tail := RequestFront(ep, build), RequestTail(ep);
    HeaderLineEndsLine("Content-Length", Decimal(|ep.query|));
    DropAppend(front, tail, |front| + |tail| - |ep.query| - 4);
    LineThenEmptyLine(ContentLengthLine(ep), ep.query);
  }

  /** Where the Authorization header starts in the request. */
  function AuthorizationAt(ep: Endpoint): nat
  {
    |RequestLine(ep)| + |HostLine(ep)|
  }

  /** Where the Content-Length value starts in the request. */
  function ContentLengthValueAt(ep: Endpoint, build: Build): nat
  {
    |RequestFront(ep, build)| + |"Content-Length: "|
  }

  lemma AuthorizationText(t: CString)
    ensures HeaderLine("Authorization", "Basic " + t) == "Authorization: Basic " + t + CRLF
  {
  }

  /** There is always an Authorization line, with an empty credential when
      the URL carries none. */
  lemma RequestHasAuthorization(ep: Endpoint, build: Build)
    ensures MatchAt(Request(ep, build), "Authorization: Basic " + AuthText(ep) + CRLF,
                    AuthorizationAt(ep))
  {
    var r := Request(ep, build);
    var pre := RequestLine(ep) + HostLine(ep);
    var auth := AuthorizationLine(ep);
    var rest := UserAgentLine(build) + RequestTail(ep);
    Assoc(pre, auth + UserAgentLine(build), RequestTail(ep));
    Assoc(auth, UserAgentLine(build), RequestTail(ep));
    assert r == pre + (auth + rest);
    DropAppend(pre, auth + rest, |pre|);
    TakeAppend(auth, rest, |auth|);
    AuthorizationText(AuthText(ep));
    assert r[|pre|..|pre| + |auth|] == (auth + rest)[..|auth|];
  }

  lemma HeaderLineText(name: string, value: CString, rest: string)
    ensures HeaderLine(name, value) + rest == name + ": " + (value + (CRLF + rest))
  {
  }

  /** The Content-Length header sits right after the front of the request,
      and its value text is the query length in decimal, followed by the
      line ending, the empty line and the query. */
  lemma ContentLengthValueText(ep: Endpoint, build: Build)
    ensures var r := Request(ep, build); var k := ContentLengthValueAt(ep, build);
      && MatchAt(r, "Content-Length: ", k - 16)
      && r[k..] == Decimal(|ep.query|) + (CRLF + (CRLF + ep.query))
  {
    var front, tail := RequestFront(ep, build), RequestTail(ep);
    var v := Decimal(|ep.query|) + (CRLF + (CRLF + ep.query));
    HeaderLineText("Content-Length", Decimal(|ep.query|), CRLF + ep.query);
    assert tail == "Content-Length: " + v;
    TakeAppend("Content-Length: ", v, 16);
    DropAppend("Content-Length: ", v, 16);
    FieldAt(front, tail, "Content-Length: ");
    DropAppend(front, tail, |front| + 16);
  }

  /** The Content-Length value, read back with `atoi`, is the length of the
      query sent as the body. */
  lemma RequestDeclaresQueryLength(ep: Endpoint, build: Build)
    ensures var r := Request(ep, build); var k := ContentLengthValueAt(ep, build);
      MatchAt(r, "Content-Length: ", k - 16) && Atoi(r[k..]) == |ep.query|
  {
    ContentLengthValueText(ep, build);
    AtoiDecimal(|ep.query|, CRLF + (CRLF + ep.query));
  }

  lemma FieldAt(front: string, tail: string, field: string)
    requires |field| <= |tail| && tail[..|field|] == field
    ensures MatchAt(front + tail, field, |front|)
  {
    assert (front + tail)[|front|..|front| + |field|] == tail[..|field|];
  }

  /** How the first response chunk was judged. */
  datatype Parsed =
    | NotHttp            // no line ending, or it does not start with "HTTP/1.1"
    | BadStatus(code: int)
    | NoBody             // no blank line, or fewer than 10 bytes from it on
    | Body(offset: nat)  // where the blank line starts

  /** `strncmp(s, "HTTP/1.1 ", 8) == 0`: only the eight version bytes count. */
  predicate StartsWithVersion(c: string)
  {
    |c| >= 8 && c[..8] == VERSION
  }

  /** `atoi(&s[9])`. */
  function StatusCode(c: string): int
    requires |c| >= STATUS_OFFSET
  {
    Atoi(c[STATUS_OFFSET..])
  }

  /** The eight bytes "HTTP/1.1" hold no carriage return, so a line ending in
      a chunk that starts with them lies at offset 8 or later. */
  lemma FirstLineEndAfterVersion(c: string, e: nat)
    requires StartsWithVersion(c)
    requires MatchAt(c, CRLF, e)
    ensures e >= 8
  {
    assert c[e] == c[e..e + 2][0] == '\r';
    assert forall k :: 0 <= k < 8 ==> c[k] == c[..8][k] && VERSION[k] != '\r';
  }

  /** The parse at wifi.c:254-281. `strstr`, `strncmp`, `atoi` and `strlen`
      run over the chunk as a C string; the offset returned counts bytes of
      the chunk. */
  function ParseResponse(data: string): (p: Parsed)
    ensures p.Body? ==> MatchAt(data, BLANK_LINE, p.offset) && p.offset + MIN_BODY_STRLEN <= |data|
  {
    var c := CStr(data);
    var eol := IndexOf(c, CRLF, 0);
    if eol.None? || !StartsWithVersion(c) then NotHttp
    else
      FirstLineEndAfterVersion(c, eol.value);
      var code := StatusCode(c);
      if code != STATUS_OK then BadStatus(code)
      else
        var sep := IndexOf(c, BLANK_LINE, eol.value + 2);
        if sep.None? || |c| - sep.value < MIN_BODY_STRLEN then NoBody
        else
          MatchInCStr(data, BLANK_LINE, sep.value);
          Body(sep.value)
  }

  /** A chunk is refused as not HTTP unless its C string starts with the
      version; a refused status is the one `atoi` read and is not 200; an
      accepted chunk carries status 200 and at least ten bytes of C string
      from the blank line on. */
  lemma ParseResponseSound(data: string)
    ensures !StartsWithVersion(CStr(data)) ==> ParseResponse(data) == NotHttp
    ensures var p := ParseResponse(data); p.BadStatus? ==>
              |CStr(data)| >= STATUS_OFFSET && p.code == StatusCode(CStr(data)) && p.code != STATUS_OK
    ensures var p := ParseResponse(data); p.Body? ==>
              && StartsWithVersion(CStr(data)) && |CStr(data)| >= STATUS_OFFSET
              && StatusCode(CStr(data)) == STATUS_OK && p.offset + MIN_BODY_STRLEN <= |CStr(data)|
  {
  }

  /** The blank line an accepted chunk is handed on from is the first one
      after the first line ending of its C string. */
  lemma ParseResponseFirstBlankLine(data: string)
    requires ParseResponse(data).Body?
    ensures IndexOf(CStr(data), CRLF, 0).Some?
    ensures IndexOf(CStr(data), BLANK_LINE, IndexOf(CStr(data), CRLF, 0).value + 2) == Some(ParseResponse(data).offset)
  {
  }

  /** What `strstr` finds in the C string it also finds in the buffer. */
  lemma MatchInCStr(data: string, pat: string, k: int)
    requires MatchAt(CStr(data), pat, k)
    ensures MatchAt(data, pat, k)
  {
    var c := CStr(data);
    assert c[k..k + |pat|] == data[k..k + |pat|];
  }

  /** What the decoder is handed for an accepted chunk: a pointer at the blank
      line and `len - offset` bytes, so the separator comes first. */
  function BodyOf(data: string, offset: nat): string
    requires offset <= |data|
  {
    data[offset..]
  }

  /** The first line of a well-formed answer: "HTTP/1.1 200 " and a reason. */
  function OkStatusLine(reason: string): string
  {
    "HTTP/1.1 200 " + reason + CRLF
  }

  /** A header block that neither holds a blank line nor ends in a line
      ending, so the first blank line after it is the one that follows. */
  predicate PlainHeaders(h: string)
  {
    && (forall k :: 0 <= k < |h| ==> !MatchAt(h, BLANK_LINE, k))
    && !(|h| >= 2 && h[|h| - 2..] == CRLF)
  }

  lemma NoBlankLineWithin(pre: string, h: string, rest: string, k: int)
    requires PlainHeaders(h)
    requires |pre| <= k < |pre| + |h|
    ensures !MatchAt(pre + h + BLANK_LINE + rest, BLANK_LINE, k)
  {
    var s := pre + h + BLANK_LINE + rest;
    var j := k - |pre|;
    var e := |pre| + |h|;
    assert s[e] == '\r';
    if j + 4 <= |h| {
      assert s[k..k + 4] == h[j..j + 4];
      assert !MatchAt(h, BLANK_LINE, j);
    } else if j + 1 == |h| {
      assert k + 1 == e;
    } else if j + 2 == |h| {
      assert h[|h| - 2..] != CRLF;
      assert h[j] != '\r' || h[j + 1] != '\n';
      assert s[k] == h[j] && s[k + 1] == h[j + 1];
    } else {
      assert k + 3 == e;
    }
  }

  /** The first line ending in a chunk is the one after its first line, when
      that line holds no carriage return. */
  lemma FirstLineEnd(line: string, rest: string)
    requires '\r' !in line
    ensures IndexOf(line + CRLF + rest, CRLF, 0) == Some(|line|)
  {
    var s := line + CRLF + rest;
    forall k | 0 <= k < |line| ensures !MatchAt(s, CRLF, k) {
      assert s[k] == line[k];
    }
    assert s[|line|..|line| + 2] == CRLF;
    IndexOfFinds(s, CRLF, 0, |line|);
  }

  /** On a chunk without NUL whose first line starts with the version and
      carries a code other than 200, the parse reports that code. */
  lemma ParseBadStatusLine(data: string, e: nat)
    requires '\0' !in data && StartsWithVersion(data)
    requires IndexOf(data, CRLF, 0) == Some(e)
    requires |data| >= STATUS_OFFSET && StatusCode(data) != STATUS_OK
    ensures ParseResponse(data) == BadStatus(StatusCode(data))
  {
    CStrOfNulFree(data);
  }

  /** On a chunk without NUL whose first line starts with the version and
      carries 200, the parse comes down to the search for the blank line,
      which starts right after the first line ending. */
  lemma ParseOkStatusLine(data: string, e: nat)
    requires '\0' !in data && StartsWithVersion(data)
    requires IndexOf(data, CRLF, 0) == Some(e)
    requires |data| >= STATUS_OFFSET && StatusCode(data) == STATUS_OK
    ensures e + 2 <= |data|
    ensures ParseResponse(data) ==
              var sep := IndexOf(data, BLANK_LINE, e + 2);
              if sep.None? || |data| - sep.value < MIN_BODY_STRLEN then NoBody else Body(sep.value)
  {
    CStrOfNulFree(data);
    FirstLineEndAfterVersion(data, e);
  }

  /** The chunk `line + CRLF + rest`, with a first line free of carriage
      returns that starts with the version, meets the premises of the two lemmas above. */
  lemma StatusLineShape(line: string, rest: string)
    requires '\r' !in line && '\0' !in line && '\0' !in rest
    requires StartsWithVersion(line)
    ensures var data := line + CRLF + rest;
      && '\0' !in data && StartsWithVersion(data)
      && IndexOf(data, CRLF, 0) == Some(|line|)
  {
    var data := line + CRLF + rest;
    assert forall i :: 0 <= i < |data| ==> data[i] != '\0' by {
      assert forall i :: 0 <= i < |line| ==> data[i] == line[i];
      assert forall i :: |line| + 2 <= i < |data| ==> data[i] == rest[i - |line| - 2];
    }
    FirstLineEnd(line, rest);
    assert data[..8] == line[..8];
  }

  /** A concatenation of NUL-free strings is NUL-free. */
  lemma NulFreeAppend(a: string, b: string)
    requires '\0' !in a && '\0' !in b
    ensures '\0' !in a + b
  {
    assert forall i :: 0 <= i < |a + b| ==> (a + b)[i] == (if i < |a| then a[i] else b[i - |a|]);
  }

  /** A concatenation of strings without carriage return has none. */
  lemma NoReturnAppend(a: string, b: string)
    requires '\r' !in a && '\r' !in b
    ensures '\r' !in a + b
  {
    assert forall i :: 0 <= i < |a + b| ==> (a + b)[i] == (if i < |a| then a[i] else b[i - |a|]);
  }

  /** `atoi` reads 200 from the status line "HTTP/1.1 200 ...". */
  lemma OkStatusCode(t: string)
    ensures StatusCode("HTTP/1.1 200 " + t) == STATUS_OK
  {
    assert "HTTP/1.1 200 " == "HTTP/1.1 " + "200 ";
    Assoc("HTTP/1.1 ", "200 ", t);
    DropAppend("HTTP/1.1 ", "200 " + t, STATUS_OFFSET);
    assert "200 " == "200" + " ";
    Assoc("200", " ", t);
    assert Decimal(200) == "200";
    AtoiDecimal(200, " " + t);
  }

  /** A chunk that starts with a 200 status line whose reason holds no
      carriage return meets the premises of `AcceptedAt`, with the first
      line ending right after that line. */
  lemma OkHead(reason: string, rest: string)
    requires '\0' !in reason && '\r' !in reason && '\0' !in rest
    ensures var data := OkStatusLine(reason) + rest; var e := |OkStatusLine(reason)| - 2;
      && '\0' !in data && StartsWithVersion(data) && IndexOf(data, CRLF, 0) == Some(e)
      && |data| >= STATUS_OFFSET && StatusCode(data) == STATUS_OK
  {
    var line := "HTTP/1.1 200 " + reason;
    var data := OkStatusLine(reason) + rest;
    assert '\r' !in line && '\0' !in line by {
      NulFreeAppend("HTTP/1.1 200 ", reason);
      NoReturnAppend("HTTP/1.1 200 ", reason);
    }
    assert StartsWithVersion(line) by {
      assert line[..8] == VERSION;
    }
    StatusLineShape(line, rest);
    assert StatusCode(data) == STATUS_OK by {
      Assoc(line, CRLF, rest);
      Assoc("HTTP/1.1 200 ", reason, CRLF + rest);
      OkStatusCode(reason + (CRLF + rest));
    }
  }

  /** A chunk with a 200 status line is accepted at the first blank line
      after that line when at least ten bytes start there. */
  lemma AcceptedAt(data: string, e: nat, off: nat)
    requires '\0' !in data && StartsWithVersion(data) && IndexOf(data, CRLF, 0) == Some(e)
    requires |data| >= STATUS_OFFSET && StatusCode(data) == STATUS_OK
    requires e + 2 <= off && MatchAt(data, BLANK_LINE, off)
    requires forall k :: e + 2 <= k < off ==> !MatchAt(data, BLANK_LINE, k)
    requires off + MIN_BODY_STRLEN <= |data|
    ensures ParseResponse(data) == Body(off)
  {
    ParseOkStatusLine(data, e);
    IndexOfFinds(data, BLANK_LINE, e + 2, off);
  }

  /** Round trip of a good response: status line, header block, blank line,
      body. The chunk is accepted, and the decoder receives the body with
      the four separator bytes in front of it. */
  lemma ParseWellFormed(reason: string, headers: string, body: string)
    requires '\0' !in reason && '\r' !in reason
    requires '\0' !in headers && PlainHeaders(headers)
    requires '\0' !in body && |body| + 4 >= MIN_BODY_STRLEN
    ensures var data := OkStatusLine(reason) + headers + BLANK_LINE + body;
      var off := |OkStatusLine(reason)| + |headers|;
      ParseResponse(data) == Body(off) && BodyOf(data, off) == BLANK_LINE + body
  {
    var pre := OkStatusLine(reason);
    var data := pre + headers + BLANK_LINE + body;
    var off := |pre| + |headers|;
    WellFormedShape(reason, headers, body);
    AcceptedAt(data, |pre| - 2, off);
    DropAppend(pre + headers, BLANK_LINE + body, off);
  }

  /** A well-formed response meets the premises of `AcceptedAt`. */
  lemma WellFormedShape(reason: string, headers: string, body: string)
    requires '\0' !in reason && '\r' !in reason
    requires '\0' !in headers && PlainHeaders(headers)
    requires '\0' !in body && |body| + 4 >= MIN_BODY_STRLEN
    ensures var data := OkStatusLine(reason) + headers + BLANK_LINE + body;
      var e := |OkStatusLine(reason)| - 2; var off := e + 2 + |headers|;
      && '\0' !in data && StartsWithVersion(data) && IndexOf(data, CRLF, 0) == Some(e)
      && |data| >= STATUS_OFFSET && StatusCode(data) == STATUS_OK
      && MatchAt(data, BLANK_LINE, off) && off + MIN_BODY_STRLEN <= |data|
      && forall k :: e + 2 <= k < off ==> !MatchAt(data, BLANK_LINE, k)
  {
    var pre := OkStatusLine(reason);
    var rest := headers + BLANK_LINE + body;
    var data := pre + headers + BLANK_LINE + body;
    assert '\0' !in rest by {
      NulFreeAppend(headers, BLANK_LINE);
      NulFreeAppend(headers + BLANK_LINE, body);
    }
    assert data == pre + rest by {
      Assoc(headers, BLANK_LINE, body);
      Assoc(pre + headers, BLANK_LINE, body);
      Assoc(pre, headers, BLANK_LINE + body);
    }
    OkHead(reason, rest);
    BlankLineAfterHeaders(pre, headers, body);
  }

  /** The first blank line after the status line is the one that ends a
      plain header block. */
  lemma BlankLineAfterHeaders(pre: string, headers: string, body: string)
    requires PlainHeaders(headers)
    ensures var data := pre + headers + BLANK_LINE + body; var off := |pre| + |headers|;
      && MatchAt(data, BLANK_LINE, off)
      && forall k :: |pre| <= k < off ==> !MatchAt(data, BLANK_LINE, k)
  {
    var data := pre + headers + BLANK_LINE + body;
    var off := |pre| + |headers|;
    forall k | |pre| <= k < off ensures !MatchAt(data, BLANK_LINE, k) {
      NoBlankLineWithin(pre, headers, body, k);
    }
    MatchBetween(pre + headers, BLANK_LINE, body);
  }

  lemma MatchBetween(a: string, pat: string, b: string)
    ensures MatchAt(a + pat + b, pat, |a|)
  {
    TakeAppend(a + pat, b, |a| + |pat|);
    DropAppend(a, pat, |a|);
    assert (a + pat + b)[|a|..|a| + |pat|] == (a + pat)[|a|..];
  }

  /** A status line of a different protocol version is refused outright. */
  lemma ParseRejectsOtherVersion(data: string)
    requires |data| < 8 || data[..8] != VERSION
    ensures ParseResponse(data) == NotHttp
  {
    assert |CStr(data)| >= 8 ==> CStr(data)[..8] == data[..8];
  }

  /** A well-formed status line with any code but 200 is refused with that
      code, before the header block is looked at. */
  lemma ParseRejectsStatus(code: nat, reason: string, rest: string)
    requires code != STATUS_OK
    requires '\r' !in reason && '\0' !in reason && '\0' !in rest
    ensures ParseResponse("HTTP/1.1 " + Decimal(code) + " " + reason + CRLF + rest)
      == BadStatus(code)
  {
    var digits := Decimal(code);
    var line := "HTTP/1.1 " + digits + " " + reason;
    var data := line + CRLF + rest;
    assert '\r' !in line && '\0' !in line by {
      assert '\r' !in digits by {
        assert forall i :: 0 <= i < |digits| ==> IsDigit(digits[i]);
      }
      NulFreeAppend("HTTP/1.1 ", digits);
      NoReturnAppend("HTTP/1.1 ", digits);
      NulFreeAppend("HTTP/1.1 " + digits, " ");
      NoReturnAppend("HTTP/1.1 " + digits, " ");
      NulFreeAppend("HTTP/1.1 " + digits + " ", reason);
      NoReturnAppend("HTTP/1.1 " + digits + " ", reason);
    }
    assert StartsWithVersion(line) by {
      assert line[..8] == ("HTTP/1.1 " + digits)[..8] == VERSION;
    }
    StatusLineShape(line, rest);
    assert StatusCode(data) == code by {
      var t1 := CRLF + rest;
      var t2 := reason + t1;
      var t3 := " " + t2;
      Assoc(line, CRLF, rest);
      Assoc("HTTP/1.1 " + digits + " ", reason, t1);
      Assoc("HTTP/1.1 " + digits, " ", t2);
      Assoc("HTTP/1.1 ", digits, t3);
      DropAppend("HTTP/1.1 ", digits + t3, STATUS_OFFSET);
      AtoiDecimal(code, t3);
    }
    ParseBadStatusLine(data, |line|);
  }
}
