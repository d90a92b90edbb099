/** The two ways the server consumes its connection: `bufio.Reader`'s
    `ReadString('\n')` for the request line and the header lines, and
    `io.ReadFull` for an upload body.  The connection is modelled as the
    whole byte sequence the client sends before it closes its side. */
module Stream {
  import opened Options
  import opened Text

  /** A line as `ReadString('\n')` hands it back without error: it ends in
      a line feed, and that is its only line feed. */
  predicate IsLine(l: string) {
    |l| > 0 && l[|l| - 1] == '\n' && '\n' !in l[..|l| - 1]
  }

  /** The outcome of one `ReadString('\n')`: a complete line and what is left
      after it, or an error because the stream ended before a line feed (the
      partial data is discarded by every caller, and the stream is then
      exhausted). */
  datatype LineRead = Line(line: string, rest: string) | Eof

  function ReadString(s: string): (r: LineRead)
    ensures r.Eof? <==> '\n' !in s
    ensures r.Line? ==> IsLine(r.line) && r.line + r.rest == s
  {
    match IndexOf(s, '\n')
    case None => Eof
    case Some(i) =>
      assert s[..i + 1][..i] == s[..i];
      assert s[..i + 1] + s[i + 1..] == s;
      Line(s[..i + 1], s[i + 1..])
  }

  /** A stream that starts with a complete line yields exactly that line. */
  lemma ReadStringLine(l: string, rest: string)
    requires IsLine(l)
    ensures ReadString(l + rest) == Line(l, rest)
  {
    var s := l + rest;
    var k := |l| - 1;
    assert s[k] == '\n';
    assert s[..k] == l[..k];
    IndexOfIsFirst(s, '\n', k);
    assert s[..k + 1] == l;
    assert s[k + 1..] == rest;
  }

  /** A line ended by CRLF with no line feed before. */
  lemma CrLfLine(t: string)
    requires '\n' !in t
    ensures IsLine(t + "\r\n")
  {
    var l := t + "\r\n";
    assert l[..|l| - 1] == t + "\r";
  }

  /** Bytes free of white space hold no line feed. */
  lemma NoSpaceNoLineFeed(t: string)
    requires NoSpace(t)
    ensures '\n' !in t
  {
  }

  /** `io.ReadFull` of `n` bytes: the first `n` bytes and the remainder, or
      an error when fewer than `n` bytes arrive before the stream ends.
      Reading zero bytes always succeeds. */
  function ReadFull(s: string, n: nat): (r: Option<(string, string)>)
    ensures r.Some? <==> n <= |s|
    ensures r.Some? ==> |r.value.0| == n && r.value.0 + r.value.1 == s
  {
    if n <= |s| then
      assert s[..n] + s[n..] == s;
      Some((s[..n], s[n..]))
    else None
  }
}
