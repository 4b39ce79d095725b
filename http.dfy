/**
 * `handleHttpRequest`: the plain-HTTP fallback of the chat port. A request line is
 * routed by prefix to one of three static files, and the response is the
 * `httpMessageTemplate` header block followed by the file's bytes.
 *
 * The response follows the HTTP/1.1 response layout of section 4 of RFC 9112 and
 * the Content-Length field of section 8.6 of RFC 9110, with two deviations the
 * model keeps: lines end in a bare `\n`, and the reason phrase is always `OK`,
 * also for status 404.
 */
module HttpFallback {
  import opened Wrappers
  import opened Bytes

  /** The contents of `./wwwroot/index.html`, `./wwwroot/favicon.ico` and `./wwwroot/404.html`. */
  datatype Site = Site(index: seq<byte>, favicon: seq<byte>, notFound: seq<byte>)

  /** The three branches of the routing `switch`. */
  datatype Page = IndexPage | FaviconPage | NotFoundPage

  /** A response as a client reads it: status code, content type and body. */
  datatype Response = Response(status: nat, contentType: seq<byte>, body: seq<byte>)

  const IndexRequest: seq<byte> := Ascii("GET / HTTP")
  const FaviconRequest: seq<byte> := Ascii("GET /favicon.ico HTTP")

  const TextHtml: seq<byte> := Ascii("text/html")
  const IconType: seq<byte> := Ascii("image/vnd.microsoft.icon")

  // `httpMessageTemplate` cut at its three verbs `%d`, `%s` and `%d`.
  const TemplateHead: seq<byte> := Ascii("HTTP/1.1 ")
  const TemplateAfterStatus: seq<byte> := Ascii(" OK\n" + "Cache-Control: no-cache, private\n" + "Content-Type: ")
  const TemplateAfterType: seq<byte> := Ascii("\nContent-Length: ")
  const TemplateTail: seq<byte> := Ascii("\n\n")

  /** The `switch` of `handleHttpRequest`: which file a request line asks for. */
  function Route(request: seq<byte>): (p: Page)
    ensures p == IndexPage <==> HasPrefix(request, IndexRequest)
    ensures p == FaviconPage <==> HasPrefix(request, FaviconRequest)
    ensures p == NotFoundPage <==> !HasPrefix(request, IndexRequest) && !HasPrefix(request, FaviconRequest)
  {
    assert IndexRequest[5] != FaviconRequest[5];
    if HasPrefix(request, IndexRequest) then IndexPage
    else if HasPrefix(request, FaviconRequest) then FaviconPage
    else NotFoundPage
  }

  function StatusCode(p: Page): nat
  {
    if p == NotFoundPage then 404 else 200
  }

  function ContentType(p: Page): (t: seq<byte>)
    ensures Newline !in t
  {
    if p == FaviconPage then IconType else TextHtml
  }

  function Content(p: Page, site: Site): seq<byte>
  {
    match p
    case IndexPage => site.index
    case FaviconPage => site.favicon
    case NotFoundPage => site.notFound
  }

  /**
   * `fmt.Sprintf(httpMessageTemplate, status, contentType, length)` followed by
   * `rest`: the template's text with the two numbers written by `%d` and the
   * content type by `%s`.
   */
  function HeaderThen(status: nat, contentType: seq<byte>, length: nat, rest: seq<byte>): seq<byte>
  {
    TemplateHead + (Decimal(status) + (TemplateAfterStatus + (contentType
      + (TemplateAfterType + (Decimal(length) + (TemplateTail + rest))))))
  }

  /** The header block alone. */
  function Header(status: nat, contentType: seq<byte>, length: nat): seq<byte>
  {
    HeaderThen(status, contentType, length, [])
  }

  /** The header for the body's length, then the body (`append(header, content...)`). */
  function Format(resp: Response): seq<byte>
  {
    HeaderThen(resp.status, resp.contentType, |resp.body|, resp.body)
  }

  /** `handleHttpRequest(message)`, with the three files given as `site`. */
  function HandleHttpRequest(request: seq<byte>, site: Site): seq<byte>
  {
    var page := Route(request);
    Format(Response(StatusCode(page), ContentType(page), Content(page, site)))
  }

  // Reading a response back: the inverse of `Format`.

  /** `s` without its prefix `p`, if it has that prefix. */
  function StripPrefix(s: seq<byte>, p: seq<byte>): (r: Option<seq<byte>>)
    ensures r.Some? <==> p <= s
    ensures r.Some? ==> s == p + r.value
  {
    if p <= s then Some(s[|p|..]) else None
  }

  /** A decimal number at the start of `s`, and what follows its digits. */
  function ParseNumber(s: seq<byte>): Option<(nat, seq<byte>)>
  {
    var n := SpanDigits(s);
    if n == 0 then None else Some((DigitsValue(s[..n]), s[n..]))
  }

  /**
   * A client's reading of a response in this server's format: the status line,
   * the cache line, the content type up to its newline, the content length, the
   * blank line, and then exactly content-length bytes of body.
   */
  function ParseResponse(r: seq<byte>): Option<Response>
  {
    match StripPrefix(r, TemplateHead)
    case None => None
    case Some(a) => ParseStatus(a)
  }

  /** From the status code on. */
  function ParseStatus(a: seq<byte>): Option<Response>
  {
    match ParseNumber(a)
    case None => None
    case Some((status, b)) =>
      match StripPrefix(b, TemplateAfterStatus)
      case None => None
      case Some(c) => ParseContentType(status, c)
  }

  /** From the value of the content type on: it runs up to the next newline. */
  function ParseContentType(status: nat, c: seq<byte>): Option<Response>
  {
    match FirstIndex(c, Newline)
    case None => None
    case Some(k) => ParseContentLength(status, c[..k], c[k..])
  }

  /** From the newline that ends the content type: the length, the blank line, then exactly that many body bytes. */
  function ParseContentLength(status: nat, contentType: seq<byte>, d: seq<byte>): Option<Response>
  {
    match StripPrefix(d, TemplateAfterType)
    case None => None
    case Some(e) =>
      match ParseNumber(e)
      case None => None
      case Some((length, f)) =>
        match StripPrefix(f, TemplateTail)
        case None => None
        case Some(body) => if |body| == length then Some(Response(status, contentType, body)) else None
  }

  lemma StripPrefixConcat(p: seq<byte>, rest: seq<byte>)
    ensures StripPrefix(p + rest, p) == Some(rest)
  {
    assert (p + rest)[|p|..] == rest;
  }

  /** The digits `%d` writes, followed by a non-digit, parse back to the number. */
  lemma ParseNumberDecimal(n: nat, rest: seq<byte>)
    requires rest == [] || !IsDigit(rest[0])
    ensures ParseNumber(Decimal(n) + rest) == Some((n, rest))
  {
    var s := Decimal(n) + rest;
    SpanDigitsConcat(Decimal(n), rest);
    assert s[..|Decimal(n)|] == Decimal(n);
    assert s[|Decimal(n)|..] == rest;
    DecimalRoundTrip(n);
  }

  /** The last stage reads back the content length, the blank line and the body. */
  lemma ContentLengthParses(status: nat, contentType: seq<byte>, body: seq<byte>)
    ensures ParseContentLength(status, contentType, TemplateAfterType + (Decimal(|body|) + (TemplateTail + body)))
      == Some(Response(status, contentType, body))
  {
    StripPrefixConcat(TemplateAfterType, Decimal(|body|) + (TemplateTail + body));
    ParseNumberDecimal(|body|, TemplateTail + body);
    StripPrefixConcat(TemplateTail, body);
  }

  /** The content-type stage reads the type up to its newline and hands the rest on. */
  lemma ContentTypeParses(status: nat, contentType: seq<byte>, rest: seq<byte>)
    requires Newline !in contentType
    ensures ParseContentType(status, contentType + (TemplateAfterType + rest))
      == ParseContentLength(status, contentType, TemplateAfterType + rest)
  {
    var afterNewline := TemplateAfterType[1..] + rest;
    assert TemplateAfterType + rest == [Newline] + afterNewline;
    assert contentType + (TemplateAfterType + rest) == contentType + [Newline] + afterNewline;
    FirstIndexAfter(contentType, Newline, afterNewline);
    var c := contentType + (TemplateAfterType + rest);
    assert c[..|contentType|] == contentType;
    assert c[|contentType|..] == TemplateAfterType + rest;
  }

  /** The status stage reads the code and the fixed text after it, and hands the rest on. */
  lemma StatusParses(status: nat, rest: seq<byte>)
    ensures ParseStatus(Decimal(status) + (TemplateAfterStatus + rest)) == ParseContentType(status, rest)
  {
    assert TemplateAfterStatus[0] == ' ' as int;
    assert (TemplateAfterStatus + rest)[0] == TemplateAfterStatus[0];
    ParseNumberDecimal(status, TemplateAfterStatus + rest);
    StripPrefixConcat(TemplateAfterStatus, rest);
  }

  /** Reading back a formatted response gives the response: status, content type and body. */
  lemma FormatParses(resp: Response)
    requires Newline !in resp.contentType
    ensures ParseResponse(Format(resp)) == Some(resp)
  {
    var lengthPart := Decimal(|resp.body|) + (TemplateTail + resp.body);
    var typePart := resp.contentType + (TemplateAfterType + lengthPart);
    var statusPart := Decimal(resp.status) + (TemplateAfterStatus + typePart);
    StripPrefixConcat(TemplateHead, statusPart);
    StatusParses(resp.status, typePart);
    ContentTypeParses(resp.status, resp.contentType, lengthPart);
    ContentLengthParses(resp.status, resp.contentType, resp.body);
  }

  /**
   * A client reads back from the response the status, content type and body of
   * the routed page: the Content-Length the header announces is the body's length.
   */
  lemma ResponseParses(request: seq<byte>, site: Site)
    ensures ParseResponse(HandleHttpRequest(request, site))
      == Some(Response(StatusCode(Route(request)), ContentType(Route(request)), Content(Route(request), site)))
  {
    var page := Route(request);
    FormatParses(Response(StatusCode(page), ContentType(page), Content(page, site)));
  }

  /**
   * The routing table: `GET / HTTP…` gives 200, `text/html` and the index page;
   * `GET /favicon.ico HTTP…` gives 200, the icon type and the icon; any other line
   * gives 404, `text/html` and the not-found page.
   */
  lemma RoutingTable(request: seq<byte>, site: Site)
    ensures HasPrefix(request, IndexRequest) ==>
      ParseResponse(HandleHttpRequest(request, site)) == Some(Response(200, TextHtml, site.index))
    ensures HasPrefix(request, FaviconRequest) ==>
      ParseResponse(HandleHttpRequest(request, site)) == Some(Response(200, IconType, site.favicon))
    ensures !HasPrefix(request, IndexRequest) && !HasPrefix(request, FaviconRequest) ==>
      ParseResponse(HandleHttpRequest(request, site)) == Some(Response(404, TextHtml, site.notFound))
  {
    ResponseParses(request, site);
  }

  /** The header block, then whatever follows it: the body is appended to the header unchanged. */
  lemma {:induction false} HeaderThenAppends(status: nat, contentType: seq<byte>, length: nat, rest: seq<byte>)
    ensures HeaderThen(status, contentType, length, rest) == Header(status, contentType, length) + rest
    ensures var h := Header(status, contentType, length); |h| >= 2 && h[|h| - 2..] == [Newline, Newline]
  {
    var h := Header(status, contentType, length);
    assert TemplateTail + rest == (TemplateTail + []) + rest;
    assert h == (TemplateHead + (Decimal(status) + (TemplateAfterStatus + (contentType
      + (TemplateAfterType + Decimal(length)))))) + TemplateTail;
  }

  /** Every header block starts with the status line `HTTP/1.1 <status> OK\n`. */
  lemma StatusLineThen(status: nat, contentType: seq<byte>, length: nat, rest: seq<byte>)
    ensures HasPrefix(HeaderThen(status, contentType, length, rest), TemplateHead + Decimal(status) + Ascii(" OK\n"))
  {
    var afterReason := Ascii("Cache-Control: no-cache, private\n" + "Content-Type: ")
      + (contentType + (TemplateAfterType + (Decimal(length) + (TemplateTail + rest))));
    AsciiConcat(" OK\n", "Cache-Control: no-cache, private\n" + "Content-Type: ");
    assert HeaderThen(status, contentType, length, rest)
      == TemplateHead + (Decimal(status) + (Ascii(" OK\n") + afterReason));
  }

  /** The reason phrase reads `OK` whatever the status: a 404 response starts `HTTP/1.1 404 OK\n`. */
  lemma NotFoundSaysOK(request: seq<byte>, site: Site)
    requires !HasPrefix(request, IndexRequest) && !HasPrefix(request, FaviconRequest)
    ensures HasPrefix(HandleHttpRequest(request, site), Ascii("HTTP/1.1 404 OK\n"))
  {
    StatusLineThen(404, TextHtml, |site.notFound|, site.notFound);
    assert TemplateHead + Decimal(404) + Ascii(" OK\n") == Ascii("HTTP/1.1 404 OK\n") by {
      assert Decimal(404) == Ascii("404");
      assert "HTTP/1.1 404 OK\n" == "HTTP/1.1 " + "404" + " OK\n";
      AsciiConcat("HTTP/1.1 " + "404", " OK\n");
      AsciiConcat("HTTP/1.1 ", "404");
    }
  }

  /** The header block ends in a blank line, and the body follows it unchanged. */
  lemma HeaderEndsInBlankLine(request: seq<byte>, site: Site)
    ensures exists header ::
      && HandleHttpRequest(request, site) == header + Content(Route(request), site)
      && |header| >= 2 && header[|header| - 2..] == [Newline, Newline]
  {
    var page := Route(request);
    HeaderThenAppends(StatusCode(page), ContentType(page), |Content(page, site)|, Content(page, site));
    var header := Header(StatusCode(page), ContentType(page), |Content(page, site)|);
    assert HandleHttpRequest(request, site) == header + Content(page, site);
  }
}
