/** Whole requests, as a client sends them, and the replies the server
    gives: the echo, user-agent, upload and download exchanges, and the
    ways an upload is refused. */
module Scenarios {
  import opened Options
  import opened Text
  import opened Stream
  import opened Headers
  import opened Request
  import opened Router
  import opened Response
  import opened Handlers
  import opened Connection
  import opened Disk

  /** A path made of a route prefix and a space-free rest is a single
      request-line field. */
  lemma PrefixedField(prefix: string, rest: string)
    requires IsField(prefix) && NoSpace(rest)
    ensures IsField(prefix + rest)
  {
    var p := prefix + rest;
    forall k | 0 <= k < |p|
      ensures !IsSpace(p[k])
    {
      if k < |prefix| {
        assert p[k] == prefix[k];
      } else {
        assert p[k] == rest[k - |prefix|];
      }
    }
  }

  /** The fixed paths and field lines the scenarios use are well formed.
      Each is its own lemma, so that the literal is checked apart from the
      serving functions. */
  lemma RoutePathsAreFields()
    ensures IsField(FilesPrefix) && IsField(EchoPrefix) && IsField("/user-agent")
  {
  }

  lemma RequestWordsAreFields()
    ensures IsField("GET") && IsField("POST") && IsField("HTTP/1.1")
  {
  }

  lemma TestClientField()
    ensures WellFormedField("User-Agent", "test-client/1.0")
  {
  }

  lemma LowerCaseLengthField()
    ensures WellFormedField("content-length", "4") && "content-length" != "Content-Length"
  {
  }

  /** The request a client sends: request line, header lines, blank line,
      then whatever bytes follow. */
  function RequestText(verb: string, path: string, version: string, lines: seq<string>, body: string): string {
    RequestLineText(verb, path, version) + Concat(lines) + "\r\n" + body
  }

  /** Echo: any method on /echo/<text> replies with <text> as plain text. */
  lemma EchoExchange(directory: string, verb: string, text: string, version: string,
                     lines: seq<string>, body: string, files: Store, write: WriteResult)
    requires IsField(verb) && IsField(version) && NoSpace(text)
    requires forall i :: 0 <= i < |lines| ==> IsHeaderLine(lines[i])
    ensures Serve(directory, RequestText(verb, EchoPrefix + text, version, lines, body), files, write)
         == Replied(Content("text/plain", text), None)
  {
    var path := EchoPrefix + text;
    RoutePathsAreFields();
    PrefixedField(EchoPrefix, text);
    ServeRequest(directory, verb, path, version, lines, body, files, write);
    EchoRoute(verb, text);
    assert TrimPrefix(path, EchoPrefix) == text;
  }

  /** GET /echo/hello is answered with a five-byte plain-text
      body "hello". */
  lemma EchoHello(directory: string, files: Store, write: WriteResult)
    ensures Serve(directory, RequestText("GET", "/echo/hello", "HTTP/1.1", [], ""), files, write)
         == Replied(Content("text/plain", "hello"), None)
    ensures Lookup(Content("text/plain", "hello").fields, "Content-Length") == Some("5")
  {
    assert EchoPrefix + "hello" == "/echo/hello";
    RequestWordsAreFields();
    EchoExchange(directory, "GET", "hello", "HTTP/1.1", [], "", files, write);
    assert FormatDecimal(5) == "5";
  }

  /** The user-agent route, for any method, hands the header map to its
      handler. */
  lemma UserAgentRequest(directory: string, verb: string, version: string, lines: seq<string>,
                         body: string, files: Store, write: WriteResult)
    requires IsField(verb) && IsField(version)
    requires forall j :: 0 <= j < |lines| ==> IsHeaderLine(lines[j])
    ensures Serve(directory, RequestText(verb, "/user-agent", version, lines, body), files, write)
         == Replied(HandleUserAgent(AbsorbAll(map[], lines)), None)
  {
    RoutePathsAreFields();
    ServeRequest(directory, verb, "/user-agent", version, lines, body, files, write);
    DispatchUserAgent(directory, RequestLine(verb, "/user-agent"), AbsorbAll(map[], lines), body, files, write);
  }

  /** User agent: the body is the value of the last User-Agent line. */
  lemma UserAgentExchange(directory: string, verb: string, version: string, lines: seq<string>,
                          i: nat, agent: string, body: string, files: Store, write: WriteResult)
    requires IsField(verb) && IsField(version)
    requires forall j :: 0 <= j < |lines| ==> IsHeaderLine(lines[j])
    requires i < |lines| && ParseHeaderLine(lines[i]) == Some(("User-Agent", agent))
    requires forall j :: i < j < |lines| ==> !Names(lines[j], "User-Agent")
    ensures Serve(directory, RequestText(verb, "/user-agent", version, lines, body), files, write)
         == Replied(Content("text/plain", agent), None)
  {
    UserAgentRequest(directory, verb, version, lines, body, files, write);
    LastWins(map[], lines, i, "User-Agent", agent);
  }

  /** A single User-Agent line is reflected as it was sent. */
  lemma UserAgentSingle(directory: string, verb: string, version: string, agent: string,
                        body: string, files: Store, write: WriteResult)
    requires IsField(verb) && IsField(version) && WellFormedField("User-Agent", agent)
    ensures Serve(directory, RequestText(verb, "/user-agent", version, [FieldLine("User-Agent", agent)], body), files, write)
         == Replied(Content("text/plain", agent), None)
  {
    SingleField("User-Agent", agent);
    UserAgentRequest(directory, verb, version, [FieldLine("User-Agent", agent)], body, files, write);
  }

  /** A User-Agent of test-client/1.0 is echoed back. */
  lemma UserAgentTestClient(directory: string, files: Store, write: WriteResult)
    ensures Serve(directory, RequestText("GET", "/user-agent", "HTTP/1.1",
                                         [FieldLine("User-Agent", "test-client/1.0")], ""), files, write)
         == Replied(Content("text/plain", "test-client/1.0"), None)
  {
    TestClientField();
    RequestWordsAreFields();
    UserAgentSingle(directory, "GET", "HTTP/1.1", "test-client/1.0", "", files, write);
  }

  /** Without a User-Agent line the body is empty. */
  lemma UserAgentMissing(directory: string, verb: string, version: string, lines: seq<string>,
                         body: string, files: Store, write: WriteResult)
    requires IsField(verb) && IsField(version)
    requires forall j :: 0 <= j < |lines| ==> IsHeaderLine(lines[j])
    requires forall j :: 0 <= j < |lines| ==> !Names(lines[j], "User-Agent")
    ensures Serve(directory, RequestText(verb, "/user-agent", version, lines, body), files, write)
         == Replied(Content("text/plain", ""), None)
  {
    UserAgentRequest(directory, verb, version, lines, body, files, write);
    NeverNamed(map[], lines, "User-Agent");
  }

  lemma UploadRouted(directory: string, verb: string, path: string, version: string, lines: seq<string>,
                     body: string, files: Store, write: WriteResult)
    requires IsField(verb) && IsField(path) && IsField(version) && Route(verb, path).FilePost?
    requires forall j :: 0 <= j < |lines| ==> IsHeaderLine(lines[j])
    ensures Serve(directory, RequestText(verb, path, version, lines, body), files, write)
         == HandleFilePost(directory, path, AbsorbAll(map[], lines), body, write)
  {
    ServeRequest(directory, verb, path, version, lines, body, files, write);
    DispatchUpload(directory, RequestLine(verb, path), AbsorbAll(map[], lines), body, files, write);
  }

  /** A POST under /files/ is handed to the upload handler with the header
      map and the bytes after the blank line. */
  lemma UploadRequest(directory: string, filename: string, version: string, lines: seq<string>,
                      body: string, files: Store, write: WriteResult)
    requires NoSpace(filename) && IsField(version)
    requires forall j :: 0 <= j < |lines| ==> IsHeaderLine(lines[j])
    ensures Serve(directory, RequestText("POST", FilesPrefix + filename, version, lines, body), files, write)
         == HandleFilePost(directory, FilesPrefix + filename, AbsorbAll(map[], lines), body, write)
  {
    RoutePathsAreFields();
    RequestWordsAreFields();
    PrefixedField(FilesPrefix, filename);
    UploadShadowsFileGet(filename);
    UploadRouted(directory, "POST", FilesPrefix + filename, version, lines, body, files, write);
  }

  /** Any other method under /files/, with any header lines and whatever
      follows them, is handed to the file-serving handler, which looks the
      name after the prefix up in the serving directory. */
  lemma DownloadRequest(directory: string, verb: string, filename: string, version: string,
                        lines: seq<string>, body: string, files: Store, write: WriteResult)
    requires IsField(verb) && verb != "POST" && NoSpace(filename) && IsField(version)
    requires forall j :: 0 <= j < |lines| ==> IsHeaderLine(lines[j])
    ensures Serve(directory, RequestText(verb, FilesPrefix + filename, version, lines, body), files, write)
         == Replied(HandleFileGet(files, directory, FilesPrefix + filename), None)
    ensures TrimPrefix(FilesPrefix + filename, FilesPrefix) == filename
  {
    RoutePathsAreFields();
    PrefixedField(FilesPrefix, filename);
    ServeRequest(directory, verb, FilesPrefix + filename, version, lines, body, files, write);
    assert FilesPrefix <= FilesPrefix + filename;
  }

  /** A Content-Length line with value `value` is a well-formed field line
      when the value is. */
  lemma LengthLine(value: string)
    requires Trimmed(value) && '\n' !in value
    ensures WellFormedField("Content-Length", value)
  {
  }

  /** The header line an upload client sends: its exact body length. */
  function LengthField(data: string): string {
    FieldLine("Content-Length", FormatDecimal(|data|))
  }

  /** The length line is a header line, and the upload handler reads back
      the body's length from it. */
  lemma LengthFieldDeclares(data: string)
    requires |data| <= MaxInt
    ensures IsHeaderLine(LengthField(data))
    ensures ContentLength(AbsorbAll(map[], [LengthField(data)])) == Length(|data|)
  {
    var d := FormatDecimal(|data|);
    FormatDecimalNoSpace(|data|);
    LengthLine(d);
    SingleField("Content-Length", d);
    AtoiFormatDecimal(|data|);
  }

  /** The upload/download round trip: an upload whose write succeeds is
      answered 201 and writes exactly the body to the named file; a
      download of the same name, by any method but POST and with any
      header lines, from the store that write leaves behind returns the
      same bytes.  With empty data this is the zero-length upload, which is
      a 201 and an empty file. */
  lemma UploadThenDownload(directory: string, filename: string, version: string, data: string,
                           verb: string, lines: seq<string>, body: string,
                           files: Store, write: WriteResult)
    requires NoSpace(filename) && IsField(version) && |data| <= MaxInt
    requires IsField(verb) && verb != "POST"
    requires forall j :: 0 <= j < |lines| ==> IsHeaderLine(lines[j])
    ensures Serve(directory, RequestText("POST", FilesPrefix + filename, version, [LengthField(data)], data), files, WriteOk)
         == Replied(Bare(Created), Some(FileWrite(directory, filename, data)))
    ensures Serve(directory, RequestText(verb, FilesPrefix + filename, version, lines, body),
                  Apply(files, FileWrite(directory, filename, data)), write)
         == Replied(Content("application/octet-stream", data), None)
  {
    LengthFieldDeclares(data);
    UploadRequest(directory, filename, version, [LengthField(data)], data, files, WriteOk);
    assert data[..|data|] == data;
    var after := Apply(files, FileWrite(directory, filename, data));
    DownloadRequest(directory, verb, filename, version, lines, body, after, write);
    assert ReadFile(after, directory, filename) == Contents(data);
  }

  /** An upload changes what a download of any other name returns in no
      way. */
  lemma UploadLeavesOthers(directory: string, filename: string, other: string, version: string,
                           verb: string, lines: seq<string>, body: string,
                           data: string, files: Store, write: WriteResult)
    requires NoSpace(other) && IsField(version) && other != filename
    requires IsField(verb) && verb != "POST"
    requires forall j :: 0 <= j < |lines| ==> IsHeaderLine(lines[j])
    ensures Serve(directory, RequestText(verb, FilesPrefix + other, version, lines, body),
                  Apply(files, FileWrite(directory, filename, data)), write)
         == Serve(directory, RequestText(verb, FilesPrefix + other, version, lines, body), files, write)
  {
    var after := Apply(files, FileWrite(directory, filename, data));
    DownloadRequest(directory, verb, other, version, lines, body, after, write);
    DownloadRequest(directory, verb, other, version, lines, body, files, write);
    assert ReadFile(after, directory, other) == ReadFile(files, directory, other);
  }

  /** A download of a name the serving directory does not hold is a bare
      404, whatever the method (other than POST), the header lines and the
      bytes after them. */
  lemma DownloadMissing(directory: string, verb: string, filename: string, version: string,
                        lines: seq<string>, body: string, files: Store, write: WriteResult)
    requires IsField(verb) && verb != "POST" && NoSpace(filename) && IsField(version)
    requires forall j :: 0 <= j < |lines| ==> IsHeaderLine(lines[j])
    requires (directory, filename) !in files
    ensures Serve(directory, RequestText(verb, FilesPrefix + filename, version, lines, body), files, write)
         == Replied(Bare(NotFound), None)
  {
    DownloadRequest(directory, verb, filename, version, lines, body, files, write);
  }

  /** A path no route claims is a bare 404. */
  lemma UnknownPath(directory: string, verb: string, path: string, version: string,
                    lines: seq<string>, body: string, files: Store, write: WriteResult)
    requires IsField(verb) && IsField(path) && IsField(version)
    requires forall i :: 0 <= i < |lines| ==> IsHeaderLine(lines[i])
    requires !(FilesPrefix <= path) && !(EchoPrefix <= path) && path != "/user-agent" && path != "/"
    ensures Serve(directory, RequestText(verb, path, version, lines, body), files, write)
         == Replied(Bare(NotFound), None)
  {
    ServeRequest(directory, verb, path, version, lines, body, files, write);
  }

  /** An upload without a Content-Length line is a bare 411 and
      writes nothing, whatever follows the headers. */
  lemma UploadWithoutLength(directory: string, filename: string, version: string, lines: seq<string>,
                            body: string, files: Store, write: WriteResult)
    requires NoSpace(filename) && IsField(version)
    requires forall i :: 0 <= i < |lines| ==> IsHeaderLine(lines[i])
    requires forall i :: 0 <= i < |lines| ==> !Names(lines[i], "Content-Length")
    ensures Serve(directory, RequestText("POST", FilesPrefix + filename, version, lines, body), files, write)
         == Replied(Bare(LengthRequired), None)
  {
    UploadRequest(directory, filename, version, lines, body, files, write);
    NeverNamed(map[], lines, "Content-Length");
  }

  /** An upload whose only field is not called Content-Length is refused
      with 411. */
  lemma UploadOtherField(directory: string, filename: string, version: string, name: string, value: string,
                         body: string, files: Store, write: WriteResult)
    requires NoSpace(filename) && IsField(version)
    requires WellFormedField(name, value) && name != "Content-Length"
    ensures Serve(directory, RequestText("POST", FilesPrefix + filename, version, [FieldLine(name, value)], body), files, write)
         == Replied(Bare(LengthRequired), None)
  {
    SingleField(name, value);
    UploadRequest(directory, filename, version, [FieldLine(name, value)], body, files, write);
  }

  /** Header names are compared with case: a lower-case content-length line
      does not count, and the upload is refused with 411. */
  lemma LowerCaseLengthIgnored(directory: string, filename: string, version: string,
                               body: string, files: Store, write: WriteResult)
    requires NoSpace(filename) && IsField(version)
    ensures Serve(directory, RequestText("POST", FilesPrefix + filename, version,
                                         [FieldLine("content-length", "4")], body), files, write)
         == Replied(Bare(LengthRequired), None)
  {
    LowerCaseLengthField();
    UploadOtherField(directory, filename, version, "content-length", "4", body, files, write);
  }

  /** An upload declaring more bytes than arrive is a bare 400 and writes
      nothing. */
  lemma UploadTruncated(directory: string, filename: string, version: string, declared: string,
                        body: string, files: Store, write: WriteResult)
    requires NoSpace(filename) && IsField(version) && |body| < |declared| <= MaxInt
    ensures Serve(directory, RequestText("POST", FilesPrefix + filename, version, [LengthField(declared)], body), files, write)
         == Replied(Bare(BadRequest), None)
  {
    LengthFieldDeclares(declared);
    UploadRequest(directory, filename, version, [LengthField(declared)], body, files, write);
  }

  /** A minus-signed length line is a header line, and the upload handler
      reads a negative length from it. */
  lemma NegativeLengthDeclares(n: nat)
    requires 0 < n <= MaxInt
    ensures IsHeaderLine(FieldLine("Content-Length", "-" + FormatDecimal(n)))
    ensures ContentLength(AbsorbAll(map[], [FieldLine("Content-Length", "-" + FormatDecimal(n))]))
         == Length(-(n as int))
  {
    var v := "-" + FormatDecimal(n);
    assert Trimmed(v) && '\n' !in v by {
      FormatDecimalNoSpace(n);
      assert v[1..] == FormatDecimal(n);
    }
    LengthLine(v);
    SingleField("Content-Length", v);
    AtoiNegative(n);
  }

  /** A negative Content-Length passes `Atoi` and makes the body allocation
      panic: there is no reply. */
  lemma UploadNegativeLength(directory: string, filename: string, version: string, n: nat,
                             body: string, files: Store, write: WriteResult)
    requires NoSpace(filename) && IsField(version) && 0 < n <= MaxInt
    ensures Serve(directory, RequestText("POST", FilesPrefix + filename, version,
                                         [FieldLine("Content-Length", "-" + FormatDecimal(n))], body), files, write)
         == Panicked
  {
    NegativeLengthDeclares(n);
    UploadRequest(directory, filename, version, [FieldLine("Content-Length", "-" + FormatDecimal(n))], body, files, write);
  }

  /** A request line with only two fields gets no reply at all. */
  lemma TwoFieldRequestLine(directory: string, verb: string, path: string, rest: string,
                            files: Store, write: WriteResult)
    requires IsField(verb) && IsField(path)
    ensures Serve(directory, verb + " " + path + "\r\n" + rest, files, write) == Dropped
  {
    var first := verb + " " + path + "\r\n";
    assert IsLine(first) by {
      NoSpaceNoLineFeed(verb);
      NoSpaceNoLineFeed(path);
      CrLfLine(verb + " " + path);
    }
    ReadStringLine(first, rest);
    ParseRequestLineTooShort(verb, path);
  }
}
