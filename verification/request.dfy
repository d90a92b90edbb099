/** The request line (HTTPfromScratch.go:56-69): split on white space,
    method (the verb) first, path second, the version read but never looked at. */
module Request {
  import opened Options
  import opened Text
  import opened Stream

  datatype RequestLine = RequestLine(verb: string, path: string)

  /** HTTPfromScratch.go:62-69.  Fewer than three fields is an invalid
      request line; otherwise the verb and path are the first two fields,
      whatever the third (and any further) field says. */
  function ParseRequestLine(line: string): (r: Option<RequestLine>)
    ensures r.Some? <==> |Fields(line)| >= 3
    ensures r.Some? ==> IsField(r.value.verb) && IsField(r.value.path)
    ensures r.Some? ==> r.value == RequestLine(Fields(line)[0], Fields(line)[1])
  {
    var parts := Fields(line);
    if |parts| < 3 then None else Some(RequestLine(parts[0], parts[1]))
  }

  /** The request line a client sends: verb, target and version separated
      by single spaces and ended by CRLF. */
  function RequestLineText(verb: string, path: string, version: string): string {
    verb + " " + path + " " + version + "\r\n"
  }

  /** A request line is read by `ReadString` as one line. */
  lemma RequestLineTextIsLine(verb: string, path: string, version: string)
    requires IsField(verb) && IsField(path) && IsField(version)
    ensures IsLine(RequestLineText(verb, path, version))
  {
    NoSpaceNoLineFeed(verb);
    NoSpaceNoLineFeed(path);
    NoSpaceNoLineFeed(version);
    CrLfLine(verb + " " + path + " " + version);
  }

  /** Parsing what a client sends recovers its verb and path, for any
      version token. */
  lemma ParseRequestLineText(verb: string, path: string, version: string)
    requires IsField(verb) && IsField(path) && IsField(version)
    ensures ParseRequestLine(RequestLineText(verb, path, version)) == Some(RequestLine(verb, path))
  {
    var ts := [verb, path, version];
    var gaps := ["", " ", " ", "\r\n"];
    RequestLineLayout(verb, path, version);
    assert Spacing(ts, gaps) by {
      assert AllSpace(" ") && AllSpace("\r\n");
    }
    ParseRequestLineLayout(ts, gaps);
  }

  /** A client's request line is the layout of its three tokens with no
      leading space, single spaces between, and CRLF after. */
  lemma RequestLineLayout(verb: string, path: string, version: string)
    ensures Layout([verb, path, version], ["", " ", " ", "\r\n"]) == RequestLineText(verb, path, version)
  {
    var ts := [verb, path, version];
    var gaps := ["", " ", " ", "\r\n"];
    assert ts[1..] == [path, version] && ts[1..][1..] == [version] && ts[1..][1..][1..] == [];
    assert gaps[1..] == [" ", " ", "\r\n"] && gaps[1..][1..] == [" ", "\r\n"] && gaps[1..][1..][1..] == ["\r\n"];
    var tail := " " + version + "\r\n";
    assert Layout([version], [" ", "\r\n"]) == tail;
    assert Layout([path, version], [" ", " ", "\r\n"]) == " " + path + tail;
    assert Layout(ts, gaps) == "" + verb + (" " + path + tail);
  }

  /** Whatever white space a client puts before, between and after the
      tokens of its request line, the verb and path are the first two
      tokens, and a line of fewer than three tokens is rejected. */
  lemma ParseRequestLineLayout(ts: seq<string>, gaps: seq<string>)
    requires forall i :: 0 <= i < |ts| ==> IsField(ts[i])
    requires Spacing(ts, gaps)
    ensures ParseRequestLine(Layout(ts, gaps)) ==
      if |ts| >= 3 then Some(RequestLine(ts[0], ts[1])) else None
  {
    FieldsOfLayout(ts, gaps);
  }

  /** A request line with only a verb and a path is rejected. */
  lemma ParseRequestLineTooShort(verb: string, path: string)
    requires IsField(verb) && IsField(path)
    ensures ParseRequestLine(verb + " " + path + "\r\n") == None
  {
    var ts := [verb, path];
    var gaps := ["", " ", "\r\n"];
    assert ts[1..] == [path] && ts[1..][1..] == [];
    assert gaps[1..] == [" ", "\r\n"] && gaps[1..][1..] == ["\r\n"];
    assert Layout([path], [" ", "\r\n"]) == " " + path + "\r\n";
    assert Layout(ts, gaps) == "" + verb + (" " + path + "\r\n");
    assert Layout(ts, gaps) == verb + " " + path + "\r\n";
    assert Spacing(ts, gaps) by {
      assert AllSpace(" ") && AllSpace("\r\n");
    }
    ParseRequestLineLayout(ts, gaps);
  }
}
