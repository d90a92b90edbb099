/** Responses: the status lines the server writes, the fields and body that
    follow, and the reading a client makes of them. */
module Response {
  import opened Options
  import opened Text
  import opened Stream
  import opened Headers

  datatype Status = OK | Created | BadRequest | NotFound | LengthRequired | InternalServerError

  /** The code and reason phrase of each status, spelled as in
      HTTPfromScratch.go. */
  function StatusText(s: Status): (r: string)
    ensures '\n' !in r
  {
    match s
    case OK => "200 OK"
    case Created => "201 Created"
    case BadRequest => "400 Bad Request"
    case NotFound => "404 Not Found"
    case LengthRequired => "411 Length Required"
    case InternalServerError => "500 Internal Server Error"
  }

  /** The status line the server writes first: protocol version, code and
      reason, ended by CRLF. */
  function StatusLine(s: Status): (r: string)
    ensures "HTTP/1.1 " <= r
  {
    "HTTP/1.1 " + StatusText(s) + "\r\n"
  }

  /** A response: status, header fields in the order they are written, and
      body. */
  datatype Response = Response(status: Status, fields: seq<(string, string)>, body: string)

  /** A response with no fields and no body, as every error and the root
      reply are. */
  function Bare(s: Status): Response {
    Response(s, [], "")
  }

  /** The bytes written to the connection for a response. */
  function Render(r: Response): string {
    StatusLine(r.status) + Concat(FieldLines(r.fields)) + "\r\n" + r.body
  }

  /** A response a client can delimit: its fields are well formed, and a
      Content-Length field, if there is one, gives the body's length in
      bytes. */
  predicate Framed(r: Response) {
    && (forall i :: 0 <= i < |r.fields| ==> WellFormedField(r.fields[i].0, r.fields[i].1))
    && (Lookup(r.fields, "Content-Length").Some? ==>
          Lookup(r.fields, "Content-Length").value == FormatDecimal(|r.body|))
  }

  /** What a client takes from a response. */
  datatype Received = Received(statusLine: string, headers: Headers, body: string)

  /** A client's reading of a response, using the server's own line and
      header readers: the status line, the header fields up to the blank
      line, then Content-Length bytes of body, or everything up to the close
      when there is no Content-Length. */
  function ReadResponse(wire: string): Option<Received> {
    match ReadString(wire)
    case Eof => None
    case Line(statusLine, rest) =>
      var (h, after) := ReadHeaders(rest, map[]);
      match ReadBody(h, after)
      case None => None
      case Some(body) => Some(Received(statusLine, h, body))
  }

  /** The body a client reads after the header section: as many bytes as
      Content-Length declares, or all that is left when it is absent. */
  function ReadBody(h: Headers, after: string): Option<string> {
    if "Content-Length" !in h then Some(after)
    else
      match Atoi(h["Content-Length"])
      case None => None
      case Some(n) =>
        if n < 0 || |after| < n then None else Some(after[..n])
  }

  lemma StatusLineIsLine(s: Status)
    ensures IsLine(StatusLine(s))
  {
    assert '\n' !in "HTTP/1.1 ";
    CrLfLine("HTTP/1.1 " + StatusText(s));
  }

  /** Distinct statuses have distinct status lines, so a client can tell
      every reply apart by its first line. */
  lemma StatusLineInjective(a: Status, b: Status)
    requires StatusLine(a) == StatusLine(b)
    ensures a == b
  {
    assert StatusLine(a)[9..12] == StatusText(a)[..3];
    assert StatusLine(b)[9..12] == StatusText(b)[..3];
  }

  /** Every framed response is read back whole: the client sees the status
      line, every field (the last of each name), and exactly the body. */
  lemma ReadRenderedResponse(r: Response)
    requires Framed(r) && |r.body| <= MaxInt
    ensures ReadResponse(Render(r)).Some?
    ensures ReadResponse(Render(r)).value.statusLine == StatusLine(r.status)
    ensures ReadResponse(Render(r)).value.body == r.body
    ensures forall name :: Get(ReadResponse(Render(r)).value.headers, name) == Lookup(r.fields, name)
  {
    var lines := FieldLines(r.fields);
    var h := AbsorbAll(map[], lines);
    var rest := Concat(lines) + "\r\n" + r.body;
    assert ReadString(Render(r)) == Line(StatusLine(r.status), rest) by {
      Regroup(StatusLine(r.status), Concat(lines), "\r\n", r.body);
      StatusLineIsLine(r.status);
      ReadStringLine(StatusLine(r.status), rest);
    }
    assert ReadHeaders(rest, map[]) == (h, r.body) by {
      FieldLinesRoundTrip(r.fields);
      ReadHeadersSection(map[], lines, r.body);
    }
    assert forall name :: Get(h, name) == Lookup(r.fields, name) by {
      forall name
        ensures Get(h, name) == Lookup(r.fields, name)
      {
        ParsedFieldsLookup(r.fields, name);
      }
    }
    assert "Content-Length" in h ==> Atoi(h["Content-Length"]) == Some(|r.body|) by {
      if "Content-Length" in h {
        assert Get(h, "Content-Length") == Lookup(r.fields, "Content-Length");
        AtoiFormatDecimal(|r.body|);
      }
    }
    ReadResponseSteps(Render(r), StatusLine(r.status), rest, h, r.body);
  }

  /** The client's reading when the status line, the header section and the
      declared length are as expected. */
  lemma ReadResponseSteps(wire: string, statusLine: string, rest: string, h: Headers, body: string)
    requires ReadString(wire) == Line(statusLine, rest)
    requires ReadHeaders(rest, map[]) == (h, body)
    requires "Content-Length" in h ==> Atoi(h["Content-Length"]) == Some(|body|)
    ensures ReadResponse(wire) == Some(Received(statusLine, h, body))
  {
    if "Content-Length" in h {
      assert body[..|body|] == body;
    }
    assert ReadBody(h, body) == Some(body);
  }
}
