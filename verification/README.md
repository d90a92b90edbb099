# HTTP from scratch, modelled in Dafny

This project models the one-file HTTP/1.1 server `HTTPfromScratch.go`. The
server handles one request per connection:

- it reads the request line with `ReadString('\n')` and splits it with
  `strings.Fields`;
- it reads header lines into a map until a line that is exactly `"\r\n"`;
- it picks one of six handlers by method and path: upload (`POST /files/…`),
  user agent, file download, echo, root, or not found;
- it writes the response with hand-built status lines and
  `Content-Type`/`Content-Length` fields.

A connection is modelled as the whole byte stream the client sends, one
`char` per byte. Serving it gives an `Outcome`, which is one of:

- `Dropped`: closed without a reply;
- `Panicked`: a run-time panic in the upload handler. Nothing recovers it,
  so it ends the whole server process, not just the connection;
- `Replied`: a `Response`, plus the file write the upload made, if any.

The file system is a parameter. `files` is a `Disk` store, keyed by
directory and file name; `os.ReadFile` looks the file up in it. `write` is
what `os.WriteFile` returns. Serving a connection never changes the store.
An upload's `Outcome` carries the `FileWrite` it attempted, whether the
write succeeded or failed. Applying a successful write to the store with
`Disk.Apply` is up to the caller, and doing so ties an upload to a later
download.

Modules, in dependency order:

- `Options`: the optional value.
- `Text`: the Go library functions the server uses, on bytes. These are
  `strings.Fields`, `strings.TrimSpace`, `strings.TrimPrefix`, the first
  colon, `strconv.Atoi` (64-bit) and `%d`.
- `Stream`: `bufio.Reader.ReadString('\n')` and `io.ReadFull`.
- `Request`: the request line.
- `Headers`: the header loop and the header map, plus the field lines a
  client writes.
- `Router`: the first-match routing chain.
- `Response`: statuses, status lines, rendering, and a client's reading of a
  response. A client's reading of a response shows that every reply can be
  read back exactly.
- `Disk`: the file store that `os.ReadFile` reads and a successful
  `os.WriteFile` updates.
- `Handlers`: the six handlers.
- `Connection`: one connection end to end.
- `Scenarios`: whole requests and their replies.

Two things the code does are easy to miss:

- The path is not required to start with `/`. Any second field of the
  request line is routed, and a path no route claims gets 404.
- `Content-Length` is read with `strconv.Atoi`, which accepts a leading `+`
  or `-`. A negative length passes the parse, and then
  `make([]byte, n)` panics. The reply is not a 400, so the model gives
  `Panicked`.

## Model

| member | source | states |
|---|---|---|
| Text.Fields | HTTPfromScratch.go:62 | the request line splits into non-empty fields without white space, which together hold exactly the line's non-space bytes in order |
| Text.FieldsOfLayout | HTTPfromScratch.go:62 | fields laid out with any white space before, between (at least one byte) and after them split back into exactly those fields |
| Text.LayoutOfFields | HTTPfromScratch.go:62 | every line is such a layout of its own fields, so the fields are the maximal non-space runs and nothing else |
| Text.TrimSpace | HTTPfromScratch.go:80 | the result has no white space at either end, starts right after the leading white space of the input, and is followed only by white space |
| Text.TrimSpacePadded | HTTPfromScratch.go:80 | trimming a trimmed text surrounded by any white space gives back that text |
| Text.TrimSpaceIdempotent | HTTPfromScratch.go:80 | trimming twice is trimming once |
| Text.IndexOf | HTTPfromScratch.go:78 | finds the first occurrence of a byte, or reports that there is none |
| Text.TrimPrefix | HTTPfromScratch.go:114 | with the prefix present, prefix plus result is the input; without it, the input is returned unchanged |
| Text.FormatDecimal | HTTPfromScratch.go:164 | `%d` of a length is a non-empty string of digits with no leading zero whose decimal value is the length |
| Text.Atoi | HTTPfromScratch.go:126 | a number is accepted only if it starts with a digit or sign, and it lies within 64-bit range |
| Text.AtoiDigits | HTTPfromScratch.go:126 | an optional sign and a non-empty run of digits, leading zeros allowed, is read as its signed value when that fits in 64 bits, and rejected otherwise |
| Text.AtoiRejectsNonDigit | HTTPfromScratch.go:126 | any byte other than a digit, white space included, anywhere except as a leading sign makes `Atoi` fail |
| Text.AtoiNeedsDigits | HTTPfromScratch.go:126 | the empty string and a lone sign are rejected |
| Text.AtoiFormatDecimal | HTTPfromScratch.go:126 | `Atoi` reads back every length `%d` prints that fits in 64 bits |
| Text.AtoiNegative | HTTPfromScratch.go:126 | a minus sign before a decimal is accepted as a negative number |
| Stream.ReadString | HTTPfromScratch.go:56 | fails exactly when no line feed remains; otherwise the line ends at the first line feed, and line plus rest is the stream |
| Stream.ReadStringLine | HTTPfromScratch.go:74 | a stream that starts with a complete line yields that line and leaves the rest |
| Stream.ReadFull | HTTPfromScratch.go:136 | succeeds exactly when at least n bytes remain, and then splits off exactly the first n |
| Request.ParseRequestLine | HTTPfromScratch.go:62-69 | a line is accepted exactly when it has at least three fields, and then the verb and path are its first and second fields |
| Request.ParseRequestLineLayout | HTTPfromScratch.go:62-69 | with any white-space separation, a line of at least three fields gives its first two as verb and path, and a shorter one is rejected |
| Request.ParseRequestLineText | HTTPfromScratch.go:62-69 | parsing a request line a client writes recovers its verb and path, whatever the version token |
| Request.ParseRequestLineTooShort | HTTPfromScratch.go:63-66 | a line of only a verb and a path is rejected |
| Headers.ParseHeaderLine | HTTPfromScratch.go:78-81 | a line is skipped exactly when it has no colon; otherwise name and value are trimmed and the name holds no colon |
| Headers.SplitAtFirstColon | HTTPfromScratch.go:78-80 | the split is at the first colon, so later colons stay in the value |
| Headers.AbsorbStores | HTTPfromScratch.go:78-81 | a colon-less line leaves the map alone; otherwise the trimmed name is added with the trimmed value and every other name keeps its value |
| Headers.AbsorbAllKeys | HTTPfromScratch.go:73-82 | after the loop the map holds the names it had plus those the lines carry, and no others |
| Headers.NeverNamed | HTTPfromScratch.go:73-82 | lines that do not name a header leave its presence and value as they were |
| Headers.LastWins | HTTPfromScratch.go:80 | a repeated header keeps the value of the last line that names it |
| Headers.ReadHeadersRest | HTTPfromScratch.go:73-82 | the bytes left after the header loop are a suffix of its input |
| Headers.ReadHeadersSection | HTTPfromScratch.go:73-82 | a header section closed by a blank line yields the map built from every line, and reading stops right after the blank line |
| Headers.ReadHeadersCutShort | HTTPfromScratch.go:74-76 | a stream that ends inside the headers keeps the complete lines read so far and leaves nothing to read |
| Headers.BareLineFeedDoesNotEndHeaders | HTTPfromScratch.go:75 | a bare line-feed line does not end the headers; it is skipped like any colon-less line |
| Headers.FieldLineRoundTrip | HTTPfromScratch.go:78-80 | a well-formed `Name: Value` line is read back as exactly that name and value |
| Headers.ParsedFieldsLookup | HTTPfromScratch.go:80 | the header map built from a sequence of field lines agrees, name by name, with a search for the last such field |
| Router.Route | HTTPfromScratch.go:84-109 | each handler is chosen exactly when its own condition holds and no earlier one does, and the handler carries the rest of the path after its prefix |
| Router.UploadShadowsFileGet | HTTPfromScratch.go:84-97 | a POST under /files/ is an upload, while a GET there is a download |
| Router.EchoRoute | HTTPfromScratch.go:99-102 | any method under /echo/ echoes the rest of the path |
| Response.StatusText | HTTPfromScratch.go:121-154 | no reason phrase holds a line feed, so every status line is one line |
| Response.StatusLineIsLine | HTTPfromScratch.go:121-154 | every status line is a single line ending in its only line feed |
| Response.StatusLineInjective | HTTPfromScratch.go:121-154 | distinct statuses have distinct status lines |
| Response.ReadRenderedResponse | HTTPfromScratch.go:164 | a client reading the bytes of a framed reply gets back its status line, every field by name, and exactly its body |
| Disk.ReadFile | HTTPfromScratch.go:178-179 | reading fails exactly when the directory holds no file of that name, and otherwise gives its bytes |
| Disk.Apply | HTTPfromScratch.go:145 | after a write the file reads back as the written bytes, and every other file reads as before |
| Handlers.Content | HTTPfromScratch.go:164 | the 200 reply of the user-agent, download (line 190) and echo (line 202) handlers carries the body, its content type, and the body's decimal length |
| Handlers.HandleRoot | HTTPfromScratch.go:212-220 | the bytes written are exactly `HTTP/1.1 200 OK` and a blank line, and the reply is framed |
| Handlers.HandleNotFound | HTTPfromScratch.go:223-231 | the bytes written are exactly `HTTP/1.1 404 Not Found` and a blank line, and the reply is framed |
| Handlers.HandleEcho | HTTPfromScratch.go:198-209 | a 200 whose body is the path after /echo/, typed text/plain, with the body's length as Content-Length |
| Handlers.HandleUserAgent | HTTPfromScratch.go:162-170 | a 200 whose body is the User-Agent value, or empty without one, typed text/plain and framed by its length |
| Handlers.HandleFileGet | HTTPfromScratch.go:173-195 | a name the directory lacks (the path after /files/) is a bare 404; a name it holds is a 200 whose body is that file's bytes, typed application/octet-stream and framed by their length |
| Handlers.ContentLength | HTTPfromScratch.go:118-132 | the header is missing, rejected by `Atoi`, or the in-range integer `Atoi` gives |
| Handlers.HandleFilePost | HTTPfromScratch.go:113-159 | 411 exactly when there is no length; 400 exactly when it is malformed or the body is short; a panic exactly when it is negative; a write exactly when all checks pass, of exactly the declared bytes, to the named file; 201 or 500 exactly as the write succeeds or fails |
| Handlers.ContentFramed | HTTPfromScratch.go:164 | a content reply carries its type and the decimal length of its body, and is framed |
| Handlers.ContentWire | HTTPfromScratch.go:164 | a content reply renders to the server's format string: status line, the two fields, a blank line, the body |
| Handlers.UploadWire | HTTPfromScratch.go:118-154 | the bytes written for each upload outcome: `HTTP/1.1 411 Length Required` and a blank line without a Content-Length, `400 Bad Request` for a malformed length or a short body, `201 Created` after a successful write and `500 Internal Server Error` after a failed one |
| Connection.Dispatch | HTTPfromScratch.go:84-109 | only the upload route can panic or write; every other method under /files/ is answered by the download handler, whatever the headers; `/` is a bare 200; an unmatched path is a bare 404; every reply is framed |
| Connection.Serve | HTTPfromScratch.go:52-110 | the connection is closed without a reply (`Dropped`) exactly when the first line never ends or has fewer than three fields; otherwise the request is dispatched whatever the headers; every reply is framed; a panic or a write comes only from a POST under /files/ |
| Connection.ServeRequest | HTTPfromScratch.go:52-82 | a well-formed request is dispatched with its verb, path, full header map, and the bytes after the blank line |
| Connection.ServeCutShort | HTTPfromScratch.go:73-77 | a request whose headers are cut off is still dispatched, with the headers that arrived and an empty body stream |
| Connection.ReplyReadable | HTTPfromScratch.go:52-110 | every reply a connection gets is read back by a client with its status line and exactly its body |
| Connection.OnlyFileGetReads | HTTPfromScratch.go:173-178 | the contents of the file store affect only the download route |
| Connection.OnlyCheckedUploadWrites | HTTPfromScratch.go:113-145 | the result of writing a file matters only once an upload has passed every earlier check |
| Connection.BodyUnreadUnlessDeclared | HTTPfromScratch.go:118-136 | bytes after the headers matter only to an upload with a non-negative Content-Length |
| Scenarios.EchoExchange | HTTPfromScratch.go:99-102 | any request to /echo/ plus some text is answered with that text as text/plain |
| Scenarios.EchoHello | HTTPfromScratch.go:198-209 | `GET /echo/hello` is answered with body hello and Content-Length 5 |
| Scenarios.UserAgentExchange | HTTPfromScratch.go:89-92 | /user-agent is answered with the value of the last User-Agent line |
| Scenarios.UserAgentTestClient | HTTPfromScratch.go:162-164 | a User-Agent of test-client/1.0 is answered with body test-client/1.0 |
| Scenarios.UserAgentMissing | HTTPfromScratch.go:163 | without a User-Agent line the body is empty |
| Scenarios.UploadRequest | HTTPfromScratch.go:84-87 | a POST under /files/ goes to the upload handler with the header map and the bytes after the blank line |
| Scenarios.DownloadRequest | HTTPfromScratch.go:94-97 | a request under /files/ by any method but POST, with any header lines and any bytes after them, goes to the download handler, which looks up the name after the prefix |
| Scenarios.UploadThenDownload | HTTPfromScratch.go:113-159 | an upload of any body with its exact length, whose write succeeds, is a 201 that writes exactly that body to the named file; a download of that name, by any method but POST and with any header lines, from the store the write leaves returns the same bytes; the empty body gives a 201 and an empty file |
| Scenarios.UploadLeavesOthers | HTTPfromScratch.go:173-195 | an upload does not change what a download of any other name returns, for any method but POST and any header lines |
| Scenarios.DownloadMissing | HTTPfromScratch.go:178-186 | a download of a name the serving directory lacks is a bare 404, for any method but POST, any header lines and any bytes after them |
| Scenarios.UnknownPath | HTTPfromScratch.go:109 | a path that no route claims is a bare 404 |
| Scenarios.UploadWithoutLength | HTTPfromScratch.go:118-124 | an upload without a Content-Length line is a bare 411 and writes nothing |
| Scenarios.LowerCaseLengthIgnored | HTTPfromScratch.go:118 | header names are case-sensitive: a lower-case content-length line still gives 411 |
| Scenarios.UploadTruncated | HTTPfromScratch.go:134-142 | an upload with fewer body bytes than declared is a bare 400 and writes nothing |
| Scenarios.NegativeLengthDeclares | HTTPfromScratch.go:118-126 | a minus-signed Content-Length line is read as the negative length it spells |
| Scenarios.UploadNegativeLength | HTTPfromScratch.go:135 | a negative Content-Length gets no reply: the allocation panics |
| Scenarios.TwoFieldRequestLine | HTTPfromScratch.go:62-66 | a request line of only two fields gets no reply |

## Left out

- `main` (HTTPfromScratch.go:22-49): flag parsing, listening, the accept loop and the goroutine per connection. Concurrency between connections is not modelled.
- Logging with `fmt.Println` is not modelled; it has no effect on the reply.
- Errors from `conn.Write` are not modelled. The server ignores them, so the model's reply is what the server tried to write.
- Network and time behaviour is not modelled. A read error other than end of stream, and a client that stops sending without closing, are both treated as the end of the stream.
- `filepath.Join` is not modelled. The pair of directory and file name stands for the joined path, so path cleaning (`..`, repeated slashes, an empty name naming the directory itself) does not make two pairs name the same file.
- Disk.ReadFile: a file that exists but cannot be read is modelled as a name missing from the store; both give the same 404.
- Text.Fields: treats only the six ASCII white-space bytes as space. Go also splits on the UTF-8 encodings of Unicode spaces such as U+0085 and U+00A0, and these are not modelled.
- Text.TrimSpace: trims only the six ASCII white-space bytes, for the same reason as Text.Fields.
- Handlers.HandleFilePost: a Content-Length too large to allocate makes `make` panic in Go. The model treats it as an ordinary length: unless that many bytes arrive, the reply is a 400.
- Response.ReadRenderedResponse: requires the body to be at most 2^63-1 bytes, since a longer Content-Length does not fit the client's 64-bit integer.
- Connection.ReplyReadable: carries the same body-length bound as Response.ReadRenderedResponse.
