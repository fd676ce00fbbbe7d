/** The header printer of lib/http/reply.cpp, and the parser of lib/http/request_parser.cpp that reads its
    headers back. */
module HttpReply {
  import opened Decimal
  import opened RequestParser

  datatype Status =
    | Ok | Created | Accepted | NoContent | MultipleChoices | MovedPermanently | MovedTemporarily | NotModified
    | BadRequest | Unauthorized | Forbidden | NotFound | InternalServerError | NotImplemented | BadGateway
    | ServiceUnavailable

  function StatusLine(status: Status): string {
    match status
    case Ok => "HTTP/1.0 200 OK\r\n"
    case Created => "HTTP/1.0 201 Created\r\n"
    case Accepted => "HTTP/1.0 202 Accepted\r\n"
    case NoContent => "HTTP/1.0 204 No Content\r\n"
    case MultipleChoices => "HTTP/1.0 300 Multiple Choices\r\n"
    case MovedPermanently => "HTTP/1.0 301 Moved Permanently\r\n"
    case MovedTemporarily => "HTTP/1.0 302 Moved Temporarily\r\n"
    case NotModified => "HTTP/1.0 304 Not Modified\r\n"
    case BadRequest => "HTTP/1.0 400 Bad Request\r\n"
    case Unauthorized => "HTTP/1.0 401 Unauthorized\r\n"
    case Forbidden => "HTTP/1.0 403 Forbidden\r\n"
    case NotFound => "HTTP/1.0 404 Not Found\r\n"
    case InternalServerError => "HTTP/1.0 500 Internal Server Error\r\n"
    case NotImplemented => "HTTP/1.0 501 Not Implemented\r\n"
    case BadGateway => "HTTP/1.0 502 Bad Gateway\r\n"
    case ServiceUnavailable => "HTTP/1.0 503 Service Unavailable\r\n"
  }

  /** The values of the enumeration. */
  function StatusCode(status: Status): nat {
    match status
    case Ok => 200
    case Created => 201
    case Accepted => 202
    case NoContent => 204
    case MultipleChoices => 300
    case MovedPermanently => 301
    case MovedTemporarily => 302
    case NotModified => 304
    case BadRequest => 400
    case Unauthorized => 401
    case Forbidden => 403
    case NotFound => 404
    case InternalServerError => 500
    case NotImplemented => 501
    case BadGateway => 502
    case ServiceUnavailable => 503
  }

  predicate ShowsCode(t: string, code: nat) {
    && |t| > 12 && t[8] == t[12] == ' ' && IsDigit(t[9]) && IsDigit(t[10]) && IsDigit(t[11])
    && DigitValue(t[9]) * 100 + DigitValue(t[10]) * 10 + DigitValue(t[11]) == code
  }

  lemma SuccessShowsCode(status: Status)
    requires 200 <= StatusCode(status) < 300
    ensures ShowsCode(StatusLine(status), StatusCode(status))
  {
  }

  lemma RedirectionShowsCode(status: Status)
    requires 300 <= StatusCode(status) < 400
    ensures ShowsCode(StatusLine(status), StatusCode(status))
  {
  }

  lemma ClientErrorShowsCode(status: Status)
    requires 400 <= StatusCode(status) < 500
    ensures ShowsCode(StatusLine(status), StatusCode(status))
  {
  }

  lemma ServerErrorShowsCode(status: Status)
    requires 500 <= StatusCode(status) < 600
    ensures ShowsCode(StatusLine(status), StatusCode(status))
  {
  }

  /** The status line shows the code. */
  lemma StatusLineHasCode(status: Status)
    ensures ShowsCode(StatusLine(status), StatusCode(status))
  {
    var code := StatusCode(status);
    hide ShowsCode, StatusLine;
    if code < 300 {
      SuccessShowsCode(status);
    } else if code < 400 {
      RedirectionShowsCode(status);
    } else if code < 500 {
      ClientErrorShowsCode(status);
    } else {
      ServerErrorShowsCode(status);
    }
  }

  datatype Reply = Reply(status: Status, headers: seq<Header>, content: string)

  /** The buffers one after the other, as they are written to the socket. */
  function Flat(buffers: seq<string>): string {
    if buffers == [] then "" else Flat(buffers[..|buffers| - 1]) + buffers[|buffers| - 1]
  }

  lemma FlatSnoc(buffers: seq<string>, b: string)
    ensures Flat(buffers + [b]) == Flat(buffers) + b
  {
    assert (buffers + [b])[..|buffers|] == buffers;
  }

  /** The header lines as sentences of the request grammar, none of them folded. */
  function Lines(headers: seq<Header>): (lines: seq<Line>)
    ensures |lines| == |headers|
    ensures forall i :: 0 <= i < |lines| ==> lines[i] == Line(headers[i].name, headers[i].value, [])
  {
    seq(|headers|, i requires 0 <= i < |headers| => Line(headers[i].name, headers[i].value, []))
  }

  lemma {:induction false} LinesHaveTheHeaders(headers: seq<Header>)
    ensures LineHeaders(Lines(headers)) == headers
    decreases |headers|
  {
    if headers != [] {
      var front := headers[..|headers| - 1];
      assert Lines(headers)[..|headers| - 1] == Lines(front);
      LinesHaveTheHeaders(front);
      var h := headers[|headers| - 1];
      assert LineHeader(Line(h.name, h.value, [])) == h by { assert h.value + "" == h.value; }
    }
  }

  method ToBuffers(reply: Reply) returns (buffers: seq<string>)
    ensures Flat(buffers) == StatusLine(reply.status) + (LinesText(Lines(reply.headers)) + CRLF + reply.content)
  {
    var headers := reply.headers;
    buffers := [StatusLine(reply.status)];
    assert buffers[..0] == [] && "" + buffers[0] == buffers[0];
    assert StatusLine(reply.status) + "" == StatusLine(reply.status);
    assert Lines(headers[..0]) == [];
    for i := 0 to |headers|
      invariant Flat(buffers) == StatusLine(reply.status) + LinesText(Lines(headers[..i]))
    {
      var h := headers[i];
      PrintHeader(buffers, h);
      OneMoreLine(headers, i);
      ghost var before := Flat(buffers);
      buffers := buffers + [h.name] + [": "] + [h.value] + [CRLF];
      Regroup(StatusLine(reply.status), LinesText(Lines(headers[..i])), h.name + ": " + h.value + CRLF);
      hide LinesText, Flat, StatusLine;
    }
    assert headers[..|headers|] == headers;
    ghost var before := Flat(buffers);
    FlatSnoc(buffers, CRLF);
    FlatSnoc(buffers + [CRLF], reply.content);
    buffers := buffers + [CRLF] + [reply.content];
    hide LinesText, Flat, StatusLine;
    Regroup(StatusLine(reply.status), LinesText(Lines(headers)), CRLF);
    Regroup(StatusLine(reply.status), LinesText(Lines(headers)) + CRLF, reply.content);
  }

  lemma PrintHeader(buffers: seq<string>, h: Header)
    ensures Flat(buffers + [h.name] + [": "] + [h.value] + [CRLF]) == Flat(buffers) + (h.name + ": " + h.value + CRLF)
  {
    FlatSnoc(buffers, h.name);
    FlatSnoc(buffers + [h.name], ": ");
    FlatSnoc(buffers + [h.name] + [": "], h.value);
    FlatSnoc(buffers + [h.name] + [": "] + [h.value], CRLF);
    hide Flat;
    Regroup(Flat(buffers), h.name, ": ");
    Regroup(Flat(buffers), h.name + ": ", h.value);
    Regroup(Flat(buffers), h.name + ": " + h.value, CRLF);
  }

  lemma OneMoreLine(headers: seq<Header>, i: nat)
    requires i < |headers|
    ensures LinesText(Lines(headers[..i + 1])) ==
            LinesText(Lines(headers[..i])) + (headers[i].name + ": " + headers[i].value + CRLF)
  {
    assert Lines(headers[..i + 1])[..i] == Lines(headers[..i]);
    var l := Line(headers[i].name, headers[i].value, []);
    assert LineText(l) == headers[i].name + ": " + headers[i].value + CRLF + "";
  }

  predicate Printable(headers: seq<Header>) {
    forall i :: 0 <= i < |headers| ==> headers[i].name != "" && AllToken(headers[i].name) && AllText(headers[i].value)
  }

  /** What is written after the status line is read back by the parser: the same headers, and the content is
      left for the caller. */
  lemma PrintedHeadersAreRead(headers: seq<Header>, content: string, r: Request)
    requires Printable(headers) && r.headers == []
    ensures Read(Machine(HeaderLineStart, r), LinesText(Lines(headers)) + CRLF + content) ==
            Outcome(Good, Machine(ExpectingNewline3, r.(headers := headers)), |LinesText(Lines(headers))| + 2)
  {
    var m, lines := Machine(HeaderLineStart, r), Lines(headers);
    AcceptsLines(m, lines);
    LinesHaveTheHeaders(headers);
    assert [] + headers == headers;
    var n := Machine(HeaderLineStart, r.(headers := headers));
    AcceptsEnd(m, LinesText(lines), n, content);
  }

  lemma {:induction false} FoldsValueIsText(folds: seq<Fold>)
    requires forall i :: 0 <= i < |folds| ==> folds[i].Valid()
    ensures AllText(FoldsValue(folds))
    decreases |folds|
  {
    if folds != [] {
      FoldsValueIsText(folds[..|folds| - 1]);
      assert AllText(folds[|folds| - 1].text);
    }
  }

  lemma {:induction false} ParsedHeadersArePrintable(lines: seq<Line>)
    requires forall i :: 0 <= i < |lines| ==> lines[i].Valid()
    ensures Printable(LineHeaders(lines))
    decreases |lines|
  {
    if lines != [] {
      ParsedHeadersArePrintable(lines[..|lines| - 1]);
      var l := lines[|lines| - 1];
      FoldsValueIsText(l.folds);
      hide FoldsValue;
    }
  }

  /** Behind any request line, the printed headers are read back as they were exactly when every name is a
      non-empty token and no value holds a control character. */
  lemma ReadBackIffPrintable(s: Sentence, headers: seq<Header>, content: string)
    requires s.Valid() && s.lines == []
    ensures var o := Read(Machine(HeaderLineStart, Meaning(s)), LinesText(Lines(headers)) + CRLF + content);
            o.verdict == Good && o.machine.req == Meaning(s).(headers := headers) <==> Printable(headers)
  {
    var m, text := Machine(HeaderLineStart, Meaning(s)), LinesText(Lines(headers)) + CRLF + content;
    if Printable(headers) {
      PrintedHeadersAreRead(headers, content, Meaning(s));
    } else if Read(m, text).verdict == Good {
      var t := AcceptedFrom(m, s, text);
      ParsedHeadersArePrintable(t.lines);
    }
  }
}
