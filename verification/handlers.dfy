/** The six request handlers of HTTPfromScratch.go:112-231, each turning
    what it reads (the path, the header map, the unread body bytes and the
    result of its one file-system call) into the response it writes. */
module Handlers {
  import opened Options
  import opened Text
  import opened Stream
  import opened Headers
  import Router
  import opened Response
  import opened Disk

  /** How one connection ends: closed without a reply, brought down by a
      run-time panic (which, unrecovered in the connection's goroutine, ends
      the whole server process), or answered, possibly after writing a
      file. */
  datatype Outcome = Dropped | Panicked | Replied(response: Response, write: Option<FileWrite>)

  /** A 200 response carrying `body` with the given content type and its
      length. */
  function Content(contentType: string, body: string): (r: Response)
    ensures r.status == OK && r.body == body
    ensures Lookup(r.fields, "Content-Type") == Some(contentType)
    ensures Lookup(r.fields, "Content-Length") == Some(FormatDecimal(|body|))
  {
    assert "Content-Length" != "Content-Type" by {
      assert "Content-Length"[8] != "Content-Type"[8];
    }
    Response(OK, [("Content-Type", contentType), ("Content-Length", FormatDecimal(|body|))], body)
  }

  /** A content response states its type and the exact length of its body,
      and a client can frame it. */
  lemma ContentFramed(contentType: string, body: string)
    requires WellFormedField("Content-Type", contentType)
    ensures Lookup(Content(contentType, body).fields, "Content-Type") == Some(contentType)
    ensures Lookup(Content(contentType, body).fields, "Content-Length") == Some(FormatDecimal(|body|))
    ensures Framed(Content(contentType, body))
  {
    FormatDecimalNoSpace(|body|);
    TypeAndLength(contentType, FormatDecimal(|body|));
  }

  lemma TypeAndLength(contentType: string, length: string)
    requires WellFormedField("Content-Type", contentType)
    requires Trimmed(length) && ':' !in length && '\n' !in length
    ensures var fields := [("Content-Type", contentType), ("Content-Length", length)];
      && Lookup(fields, "Content-Type") == Some(contentType)
      && Lookup(fields, "Content-Length") == Some(length)
      && forall i :: 0 <= i < |fields| ==> WellFormedField(fields[i].0, fields[i].1)
  {
    var fields := [("Content-Type", contentType), ("Content-Length", length)];
    assert fields[..1] == [("Content-Type", contentType)];
    assert Lookup(fields, "Content-Type") == Some(contentType) by {
      assert fields[1].0 != "Content-Type";
      assert Lookup(fields[..1], "Content-Type") == Some(contentType);
    }
    assert Trimmed("Content-Length");
  }

  /** The two content types the server sends are well-formed field values.
      Each is its own lemma, so that the literal is checked apart from the
      handlers. */
  lemma PlainTextField()
    ensures WellFormedField("Content-Type", "text/plain")
  {
  }

  lemma OctetStreamField()
    ensures WellFormedField("Content-Type", "application/octet-stream")
  {
  }

  /** HTTPfromScratch.go:212-220. */
  function HandleRoot(): (r: Response)
    ensures Render(r) == "HTTP/1.1 200 OK\r\n\r\n"
    ensures r.status == OK && Framed(r)
  {
    Bare(OK)
  }

  /** HTTPfromScratch.go:223-231. */
  function HandleNotFound(): (r: Response)
    ensures Render(r) == "HTTP/1.1 404 Not Found\r\n\r\n"
    ensures r.status == NotFound && Framed(r)
  {
    Bare(NotFound)
  }

  /** HTTPfromScratch.go:198-209: the path after /echo/, verbatim, as plain
      text. */
  function HandleEcho(urlPath: string): (r: Response)
    ensures r.status == OK
    ensures Router.EchoPrefix <= urlPath ==> urlPath == Router.EchoPrefix + r.body
    ensures Lookup(r.fields, "Content-Type") == Some("text/plain")
    ensures Lookup(r.fields, "Content-Length") == Some(FormatDecimal(|r.body|))
    ensures Framed(r)
  {
    var text := TrimPrefix(urlPath, Router.EchoPrefix);
    PlainTextField();
    ContentFramed("text/plain", text);
    Content("text/plain", text)
  }

  /** HTTPfromScratch.go:162-170: the User-Agent header's value, or nothing
      when the request had none, as plain text. */
  function HandleUserAgent(headers: Headers): (r: Response)
    ensures r.status == OK
    ensures "User-Agent" in headers ==> r.body == headers["User-Agent"]
    ensures "User-Agent" !in headers ==> r.body == ""
    ensures Lookup(r.fields, "Content-Type") == Some("text/plain")
    ensures Lookup(r.fields, "Content-Length") == Some(FormatDecimal(|r.body|))
    ensures Framed(r)
  {
    var agent := Get(headers, "User-Agent").GetOr("");
    PlainTextField();
    ContentFramed("text/plain", agent);
    Content("text/plain", agent)
  }

  /** HTTPfromScratch.go:173-195: the named file's bytes unchanged, or 404
      when reading it failed for any reason.  The file is the one the path
      names after /files/, in the serving directory. */
  function HandleFileGet(files: Store, directory: string, urlPath: string): (r: Response)
    ensures var name := TrimPrefix(urlPath, Router.FilesPrefix);
      (directory, name) !in files ==> r == Bare(NotFound)
    ensures var name := TrimPrefix(urlPath, Router.FilesPrefix);
      (directory, name) in files ==> r.status == OK && r.body == files[(directory, name)]
    ensures r.status == OK ==> Lookup(r.fields, "Content-Type") == Some("application/octet-stream")
    ensures r.status == OK ==> Lookup(r.fields, "Content-Length") == Some(FormatDecimal(|r.body|))
    ensures Framed(r)
  {
    var filename := TrimPrefix(urlPath, Router.FilesPrefix);
    match ReadFile(files, directory, filename)
    case ReadFailed => Bare(NotFound)
    case Contents(data) =>
      OctetStreamField();
      ContentFramed("application/octet-stream", data);
      Content("application/octet-stream", data)
  }

  /** The Content-Length request header as the upload handler sees it. */
  datatype LengthHeader = Missing | Malformed | Length(n: int)

  /** HTTPfromScratch.go:118-132: absent, rejected by `strconv.Atoi`, or
      the integer it denotes (possibly negative). */
  function ContentLength(headers: Headers): (c: LengthHeader)
    ensures c.Missing? <==> "Content-Length" !in headers
    ensures c.Malformed? <==> "Content-Length" in headers && Atoi(headers["Content-Length"]).None?
    ensures c.Length? ==> Atoi(headers["Content-Length"]) == Some(c.n) && MinInt <= c.n <= MaxInt
  {
    if "Content-Length" !in headers then Missing
    else
      match Atoi(headers["Content-Length"])
      case None => Malformed
      case Some(n) => Length(n)
  }

  /** HTTPfromScratch.go:113-159.  The checks run in order: no
      Content-Length is 411; one `Atoi` rejects is 400; a negative one makes
      `make` panic; fewer body bytes than declared is 400; then the file is
      written, and its failure is 500 and its success 201.  Every reply is a
      bare status line, and the file is written only once all the earlier
      checks have passed, with exactly the declared number of bytes. */
  function HandleFilePost(directory: string, urlPath: string, headers: Headers, stream: string, write: WriteResult): (r: Outcome)
    ensures !r.Dropped?
    ensures r.Replied? ==> r.response.fields == [] && r.response.body == ""
    ensures r.Replied? && r.response.status == LengthRequired <==> ContentLength(headers).Missing?
    ensures r.Replied? && r.response.status == BadRequest <==>
      var c := ContentLength(headers);
      c.Malformed? || (c.Length? && 0 <= c.n && |stream| < c.n)
    ensures r.Panicked? <==> var c := ContentLength(headers); c.Length? && c.n < 0
    ensures r.Replied? && r.write.Some? <==>
      var c := ContentLength(headers);
      c.Length? && 0 <= c.n <= |stream|
    ensures r.Replied? && r.write.Some? ==>
      var c := ContentLength(headers);
      && r.write.value.directory == directory
      && (Router.FilesPrefix <= urlPath ==> urlPath == Router.FilesPrefix + r.write.value.filename)
      && |r.write.value.data| == c.n
      && r.write.value.data <= stream
    ensures r.Replied? && r.response.status == Created <==> r.Replied? && r.write.Some? && write.WriteOk?
    ensures r.Replied? && r.response.status == InternalServerError <==> r.Replied? && r.write.Some? && write.WriteFailed?
    ensures r.Replied? ==> r.response.status in {LengthRequired, BadRequest, Created, InternalServerError}
  {
    var filename := TrimPrefix(urlPath, Router.FilesPrefix);
    match ContentLength(headers)
    case Missing => Replied(Bare(LengthRequired), None)
    case Malformed => Replied(Bare(BadRequest), None)
    case Length(n) =>
      if n < 0 then Panicked
      else
        match ReadFull(stream, n)
        case None => Replied(Bare(BadRequest), None)
        case Some((body, _)) =>
          var written := Some(FileWrite(directory, filename, body));
          match write
          case WriteFailed => Replied(Bare(InternalServerError), written)
          case WriteOk => Replied(Bare(Created), written)
  }

  /** The bytes of a content response are those of the server's format
      string, piece by piece: status line, the two fields, the blank line,
      the body. */
  lemma ContentWire(contentType: string, body: string)
    ensures Render(Content(contentType, body)) ==
      "HTTP/1.1 200 OK\r\n" + ("Content-Type: " + contentType + "\r\n")
      + ("Content-Length: " + FormatDecimal(|body|) + "\r\n") + "\r\n" + body
  {
    TypeAndLengthWire(contentType, FormatDecimal(|body|), body);
  }

  lemma TypeAndLengthWire(contentType: string, length: string, body: string)
    ensures Render(Response(OK, [("Content-Type", contentType), ("Content-Length", length)], body)) ==
      "HTTP/1.1 200 OK\r\n" + ("Content-Type: " + contentType + "\r\n")
      + ("Content-Length: " + length + "\r\n") + "\r\n" + body
  {
    var l0 := FieldLine("Content-Type", contentType);
    var l1 := FieldLine("Content-Length", length);
    var lines := FieldLines([("Content-Type", contentType), ("Content-Length", length)]);
    assert Concat(lines) == l0 + l1 by {
      assert lines == [l0, l1];
      assert lines[1..] == [l1];
      assert Concat([l1]) == l1 + Concat([]);
    }
    var status := "HTTP/1.1 200 OK\r\n";
    assert StatusLine(OK) == status by {
    }
    var typeLine := "Content-Type: " + contentType + "\r\n";
    var lengthLine := "Content-Length: " + length + "\r\n";
    assert l0 == typeLine by {
      assert "Content-Type" + ": " == "Content-Type: ";
    }
    assert l1 == lengthLine by {
      assert "Content-Length" + ": " == "Content-Length: ";
    }
    Flatten(status, typeLine, lengthLine, "\r\n", body);
  }

  /** Regrouping the pieces of a rendered response. */
  lemma Flatten(a: string, b: string, c: string, d: string, e: string)
    ensures a + (b + c) + d + e == a + b + c + d + e
  {
  }

  /** The bytes of each upload reply are those of HTTPfromScratch.go:121,
      129/139, 154 and 148: 411 when there is no Content-Length, 400 when it
      is malformed or the body is short, 201 when the write succeeds and 500
      when it fails. */
  lemma UploadWire(directory: string, urlPath: string, headers: Headers, stream: string, write: WriteResult)
    requires HandleFilePost(directory, urlPath, headers, stream, write).Replied?
    ensures var r := HandleFilePost(directory, urlPath, headers, stream, write).response;
      && Render(r) == "HTTP/1.1 " + StatusText(r.status) + "\r\n\r\n"
      && StatusText(r.status) in {"411 Length Required", "400 Bad Request", "201 Created", "500 Internal Server Error"}
    ensures var r := HandleFilePost(directory, urlPath, headers, stream, write).response;
      var c := ContentLength(headers);
      && (c.Missing? ==> Render(r) == "HTTP/1.1 " + "411 Length Required" + "\r\n\r\n")
      && (c.Malformed? || (c.Length? && 0 <= c.n && |stream| < c.n) ==> Render(r) == "HTTP/1.1 " + "400 Bad Request" + "\r\n\r\n")
      && (c.Length? && 0 <= c.n <= |stream| && write.WriteOk? ==> Render(r) == "HTTP/1.1 " + "201 Created" + "\r\n\r\n")
      && (c.Length? && 0 <= c.n <= |stream| && write.WriteFailed? ==> Render(r) == "HTTP/1.1 " + "500 Internal Server Error" + "\r\n\r\n")
  {
    var r := HandleFilePost(directory, urlPath, headers, stream, write).response;
    assert r == Bare(r.status);
    BareWire(r.status);
  }

  /** A bare reply is its status line and the blank line. */
  lemma BareWire(s: Status)
    ensures Render(Bare(s)) == "HTTP/1.1 " + StatusText(s) + "\r\n\r\n"
  {
    assert Concat(FieldLines([])) == [];
  }
}
