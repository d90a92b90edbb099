/** One connection, end to end (HTTPfromScratch.go:52-110): read the request
    line, read the headers, pick a handler, and produce its reply.  The file
    system is a parameter: `files` is the store `os.ReadFile` reads from, and
    `write` is what `os.WriteFile` returns; each is consulted only by the
    handler that makes that call. */
module Connection {
  import opened Options
  import opened Text
  import opened Stream
  import opened Headers
  import opened Request
  import opened Router
  import opened Response
  import opened Handlers
  import opened Disk

  /** HTTPfromScratch.go:84-109: run the one handler the router picks, giving
      it the headers and the bytes left after them. */
  function Dispatch(directory: string, req: RequestLine, headers: Headers, rest: string,
                    files: Store, write: WriteResult): (r: Outcome)
    ensures !r.Dropped?
    ensures r.Replied? ==> Framed(r.response)
    ensures r.Panicked? || (r.Replied? && r.write.Some?) ==> Route(req.verb, req.path).FilePost?
    ensures Route(req.verb, req.path).Unrouted? ==> r == Replied(Bare(NotFound), None)
    ensures Route(req.verb, req.path).Root? ==> r == Replied(Bare(OK), None)
    ensures Route(req.verb, req.path).FileGet? ==> r == Replied(HandleFileGet(files, directory, req.path), None)
  {
    match Route(req.verb, req.path)
    case FilePost(_) =>
      var r := HandleFilePost(directory, req.path, headers, rest, write);
      assert r.Replied? ==> r.response == Bare(r.response.status);
      r
    case UserAgent => Replied(HandleUserAgent(headers), None)
    case FileGet(_) => Replied(HandleFileGet(files, directory, req.path), None)
    case Echo(_) => Replied(HandleEcho(req.path), None)
    case Root => Replied(HandleRoot(), None)
    case Unrouted => Replied(HandleNotFound(), None)
  }

  /** HTTPfromScratch.go:52-110.  A connection whose first line never ends,
      or whose first line has fewer than three fields, is closed without a
      reply.  Otherwise the header loop runs and the request is dispatched
      with whatever headers it collected, however the loop ended; every
      reply can be framed by its client, and only an upload writes a file or
      panics. */
  function Serve(directory: string, stream: string, files: Store, write: WriteResult): (r: Outcome)
    ensures r.Dropped? <==> ReadString(stream).Eof? || |Fields(ReadString(stream).line)| < 3
    ensures r.Replied? ==> Framed(r.response)
    ensures r.Panicked? || (r.Replied? && r.write.Some?) ==>
      var req := ParseRequestLine(ReadString(stream).line).value;
      req.verb == "POST" && FilesPrefix <= req.path
  {
    match ReadString(stream)
    case Eof => Dropped
    case Line(line, rest) =>
      match ParseRequestLine(line)
      case None => Dropped
      case Some(req) =>
        var (headers, body) := ReadHeaders(rest, map[]);
        Dispatch(directory, req, headers, body, files, write)
  }

  /** A well-formed request is parsed into its method, path and headers, and
      the bytes after the blank line are what the handler gets as its body
      stream. */
  lemma ServeRequest(directory: string, verb: string, path: string, version: string,
                     lines: seq<string>, body: string, files: Store, write: WriteResult)
    requires IsField(verb) && IsField(path) && IsField(version)
    requires forall i :: 0 <= i < |lines| ==> IsHeaderLine(lines[i])
    ensures Serve(directory, RequestLineText(verb, path, version) + Concat(lines) + "\r\n" + body, files, write)
         == Dispatch(directory, RequestLine(verb, path), AbsorbAll(map[], lines), body, files, write)
  {
    var first := RequestLineText(verb, path, version);
    var rest := Concat(lines) + "\r\n" + body;
    var stream := first + rest;
    Regroup(first, Concat(lines), "\r\n", body);
    assert ReadString(stream) == Line(first, rest) by {
      RequestLineTextIsLine(verb, path, version);
      ReadStringLine(first, rest);
    }
    assert ParseRequestLine(first) == Some(RequestLine(verb, path)) by {
      ParseRequestLineText(verb, path, version);
    }
    assert ReadHeaders(rest, map[]) == (AbsorbAll(map[], lines), body) by {
      ReadHeadersSection(map[], lines, body);
    }
    ServeSteps(directory, stream, first, rest, RequestLine(verb, path), AbsorbAll(map[], lines), body, files, write);
  }

  /** Serving is reading the request line, parsing it, reading the headers
      and dispatching. */
  lemma ServeSteps(directory: string, stream: string, first: string, rest: string, req: RequestLine,
                   headers: Headers, body: string, files: Store, write: WriteResult)
    requires ReadString(stream) == Line(first, rest)
    requires ParseRequestLine(first) == Some(req)
    requires ReadHeaders(rest, map[]) == (headers, body)
    ensures Serve(directory, stream, files, write) == Dispatch(directory, req, headers, body, files, write)
  {
  }

  /** A request whose headers are cut off by the end of the stream is still
      answered, using the header lines that did arrive, with nothing left to
      read as a body. */
  lemma ServeCutShort(directory: string, verb: string, path: string, version: string,
                      lines: seq<string>, tail: string, files: Store, write: WriteResult)
    requires IsField(verb) && IsField(path) && IsField(version)
    requires forall i :: 0 <= i < |lines| ==> IsHeaderLine(lines[i])
    requires '\n' !in tail
    ensures Serve(directory, RequestLineText(verb, path, version) + Concat(lines) + tail, files, write)
         == Dispatch(directory, RequestLine(verb, path), AbsorbAll(map[], lines), "", files, write)
  {
    var first := RequestLineText(verb, path, version);
    var rest := Concat(lines) + tail;
    var stream := first + rest;
    Regroup3(first, Concat(lines), tail);
    assert ReadString(stream) == Line(first, rest) by {
      RequestLineTextIsLine(verb, path, version);
      ReadStringLine(first, rest);
    }
    assert ParseRequestLine(first) == Some(RequestLine(verb, path)) by {
      ParseRequestLineText(verb, path, version);
    }
    assert ReadHeaders(rest, map[]) == (AbsorbAll(map[], lines), "") by {
      ReadHeadersCutShort(map[], lines, tail);
    }
    ServeSteps(directory, stream, first, rest, RequestLine(verb, path), AbsorbAll(map[], lines), "", files, write);
  }

  /** The route decides the handler: an upload is handed the header map
      and the unread bytes, the user-agent route the header map. */
  lemma DispatchUpload(directory: string, req: RequestLine, headers: Headers, rest: string,
                       files: Store, write: WriteResult)
    requires Route(req.verb, req.path).FilePost?
    ensures Dispatch(directory, req, headers, rest, files, write)
         == HandleFilePost(directory, req.path, headers, rest, write)
  {
  }

  lemma DispatchUserAgent(directory: string, req: RequestLine, headers: Headers, rest: string,
                          files: Store, write: WriteResult)
    requires Route(req.verb, req.path).UserAgent?
    ensures Dispatch(directory, req, headers, rest, files, write)
         == Replied(HandleUserAgent(headers), None)
  {
  }

  /** Whatever a connection is answered with, a client reading it with the
      same line and header rules gets back the status line and exactly the
      body the server meant to send. */
  lemma ReplyReadable(directory: string, stream: string, files: Store, write: WriteResult)
    requires Serve(directory, stream, files, write).Replied?
    requires |Serve(directory, stream, files, write).response.body| <= MaxInt
    ensures var resp := Serve(directory, stream, files, write).response;
      && ReadResponse(Render(resp)).Some?
      && ReadResponse(Render(resp)).value.statusLine == StatusLine(resp.status)
      && ReadResponse(Render(resp)).value.body == resp.body
  {
    ReadRenderedResponse(Serve(directory, stream, files, write).response);
  }

  /** Only the file-serving route reads the store. */
  lemma OnlyFileGetReads(directory: string, req: RequestLine, headers: Headers, rest: string,
                         files1: Store, files2: Store, write: WriteResult)
    requires !Route(req.verb, req.path).FileGet?
    ensures Dispatch(directory, req, headers, rest, files1, write)
         == Dispatch(directory, req, headers, rest, files2, write)
  {
  }

  /** The result of writing the file matters only once an upload has
      passed every earlier check. */
  lemma OnlyCheckedUploadWrites(directory: string, req: RequestLine, headers: Headers, rest: string,
                                files: Store, write1: WriteResult, write2: WriteResult)
    requires !(Route(req.verb, req.path).FilePost?
               && ContentLength(headers).Length? && 0 <= ContentLength(headers).n <= |rest|)
    ensures Dispatch(directory, req, headers, rest, files, write1)
         == Dispatch(directory, req, headers, rest, files, write2)
  {
  }

  /** Nothing after the headers is read unless an upload declared a
      non-negative length: a missing or malformed Content-Length is answered
      whatever follows. */
  lemma BodyUnreadUnlessDeclared(directory: string, req: RequestLine, headers: Headers,
                                 rest1: string, rest2: string, files: Store, write: WriteResult)
    requires !(Route(req.verb, req.path).FilePost?
               && ContentLength(headers).Length? && 0 <= ContentLength(headers).n)
    ensures Dispatch(directory, req, headers, rest1, files, write)
         == Dispatch(directory, req, headers, rest2, files, write)
  {
  }
}
