/** Header parsing: the loop that follows the request line
    (HTTPfromScratch.go:71-82), and the `Name: Value` line format that both
    requests and responses use. */
module Headers {
  import opened Options
  import opened Text
  import opened Stream

  /** Header names map to values; names are compared exactly, with case. */
  type Headers = map<string, string>

  /** A header line split at its first colon, both halves trimmed; `None`
      for a line with no colon. */
  function ParseHeaderLine(line: string): (r: Option<(string, string)>)
    ensures r.None? <==> ':' !in line
    ensures r.Some? ==> Trimmed(r.value.0) && Trimmed(r.value.1) && ':' !in r.value.0
  {
    match IndexOf(line, ':')
    case None => None
    case Some(i) =>
      var name := TrimSpace(line[..i]);
      assert forall c :: c in name ==> c in line[..i][LeadingSpace(line[..i])..];
      Some((name, TrimSpace(line[i + 1..])))
  }

  /** Only the first colon splits: the value keeps any colons after it. */
  lemma SplitAtFirstColon(name: string, value: string)
    requires ':' !in name
    ensures ParseHeaderLine(name + ":" + value) == Some((TrimSpace(name), TrimSpace(value)))
  {
    var line := name + ":" + value;
    assert line[|name|] == ':';
    assert line[..|name|] == name;
    IndexOfIsFirst(line, ':', |name|);
    assert line[|name| + 1..] == value;
  }

  /** `line` is a header line that names `name`. */
  predicate Names(line: string, name: string) {
    var p := ParseHeaderLine(line);
    p.Some? && p.value.0 == name
  }

  /** One pass of the header loop's body: store the line's pair, replacing
      any earlier value of the same name, or skip a line without a colon. */
  function Absorb(h: Headers, line: string): Headers {
    match ParseHeaderLine(line)
    case None => h
    case Some(p) => h[p.0 := p.1]
  }

  /** A line without a colon changes nothing; a line with one adds its
      name, with its value, and leaves every other name as it was. */
  lemma AbsorbStores(h: Headers, line: string)
    ensures ':' !in line ==> Absorb(h, line) == h
    ensures ':' in line ==>
      var (name, value) := ParseHeaderLine(line).value;
      && Absorb(h, line).Keys == h.Keys + {name}
      && Absorb(h, line)[name] == value
      && forall other :: other in h && other != name ==> Absorb(h, line)[other] == h[other]
  {
  }

  /** The names the header lines among `lines` carry. */
  function NamesIn(lines: seq<string>): set<string>
    decreases |lines|
  {
    if lines == [] then {}
    else
      var first := match ParseHeaderLine(lines[0]) case None => {} case Some(p) => {p.0};
      first + NamesIn(lines[1..])
  }

  /** The header map after absorbing `lines` in order. */
  function AbsorbAll(h: Headers, lines: seq<string>): Headers
    decreases |lines|
  {
    if lines == [] then h else AbsorbAll(Absorb(h, lines[0]), lines[1..])
  }

  /** The loop keeps every name it had and adds those the lines carry, and
      no others. */
  lemma {:induction false} AbsorbAllKeys(h: Headers, lines: seq<string>)
    ensures AbsorbAll(h, lines).Keys == h.Keys + NamesIn(lines)
    decreases |lines|
  {
    if lines != [] {
      AbsorbStores(h, lines[0]);
      AbsorbAllKeys(Absorb(h, lines[0]), lines[1..]);
    }
  }

  /** Absorbing a line that does not name `name` leaves `name` alone. */
  lemma AbsorbOther(h: Headers, line: string, name: string)
    requires !Names(line, name)
    ensures name in Absorb(h, line) <==> name in h
    ensures name in h ==> Absorb(h, line)[name] == h[name]
  {
    var p := ParseHeaderLine(line);
    if p.Some? {
      assert p.value.0 != name;
      assert Absorb(h, line) == h[p.value.0 := p.value.1];
    }
  }

  /** A name that no line mentions keeps whatever it had before. */
  lemma {:induction false} NeverNamed(h: Headers, lines: seq<string>, name: string)
    requires forall j :: 0 <= j < |lines| ==> !Names(lines[j], name)
    ensures name in AbsorbAll(h, lines) <==> name in h
    ensures name in h ==> AbsorbAll(h, lines)[name] == h[name]
    decreases |lines|
  {
    if lines != [] {
      assert !Names(lines[0], name);
      AbsorbOther(h, lines[0], name);
      NeverNamed(Absorb(h, lines[0]), lines[1..], name);
    }
  }

  /** A repeated name keeps the value of the last line that names it. */
  lemma {:induction false} LastWins(h: Headers, lines: seq<string>, i: nat, name: string, value: string)
    requires i < |lines| && ParseHeaderLine(lines[i]) == Some((name, value))
    requires forall j :: i < j < |lines| ==> !Names(lines[j], name)
    ensures name in AbsorbAll(h, lines) && AbsorbAll(h, lines)[name] == value
    decreases |lines|
  {
    if i == 0 {
      LastWinsFirst(h, lines, name, value);
    } else {
      DropFirst(lines, i, name, value);
      LastWins(Absorb(h, lines[0]), lines[1..], i - 1, name, value);
      assert AbsorbAll(h, lines) == AbsorbAll(Absorb(h, lines[0]), lines[1..]);
    }
  }

  /** The first line names `name` and no later one does. */
  lemma LastWinsFirst(h: Headers, lines: seq<string>, name: string, value: string)
    requires |lines| > 0 && ParseHeaderLine(lines[0]) == Some((name, value))
    requires forall j :: 0 < j < |lines| ==> !Names(lines[j], name)
    ensures name in AbsorbAll(h, lines) && AbsorbAll(h, lines)[name] == value
  {
    var h' := Absorb(h, lines[0]);
    AbsorbStores(h, lines[0]);
    assert name in h' && h'[name] == value;
    assert forall j :: 0 <= j < |lines[1..]| ==> !Names(lines[1..][j], name) by {
      forall j | 0 <= j < |lines[1..]|
        ensures !Names(lines[1..][j], name)
      {
        assert lines[1..][j] == lines[j + 1];
      }
    }
    NeverNamed(h', lines[1..], name);
    assert AbsorbAll(h, lines) == AbsorbAll(h', lines[1..]);
  }

  /** The hypotheses of `LastWins` carry over to the lines after the first. */
  lemma DropFirst(lines: seq<string>, i: nat, name: string, value: string)
    requires 0 < i < |lines| && ParseHeaderLine(lines[i]) == Some((name, value))
    requires forall j :: i < j < |lines| ==> !Names(lines[j], name)
    ensures ParseHeaderLine(lines[1..][i - 1]) == Some((name, value))
    ensures forall j :: i - 1 < j < |lines[1..]| ==> !Names(lines[1..][j], name)
  {
    forall j | i - 1 < j < |lines[1..]|
      ensures !Names(lines[1..][j], name)
    {
      assert lines[1..][j] == lines[j + 1];
    }
  }

  /** The header loop of HTTPfromScratch.go:73-82 on the bytes after the
      request line: absorb lines until a line that is exactly "\r\n" or until
      `ReadString` fails.  Returns the headers and the unread rest of the
      stream. */
  function ReadHeaders(s: string, h: Headers): (r: (Headers, string))
    decreases |s|
  {
    match ReadString(s)
    case Eof => (h, "")
    case Line(line, rest) =>
      if line == "\r\n" then (h, rest)
      else ReadHeaders(rest, Absorb(h, line))
  }

  /** What the header loop leaves unread is a suffix of its input: the
      bytes after the blank line, or nothing when the stream ran out. */
  lemma {:induction false} ReadHeadersRest(s: string, h: Headers)
    ensures IsSuffix(ReadHeaders(s, h).1, s)
    decreases |s|
  {
    if ReadString(s).Line? {
      var line, rest := ReadString(s).line, ReadString(s).rest;
      ReadHeadersUnfold(s, h, line, rest);
      if line == "\r\n" {
        assert IsSuffix(rest, rest) by {
          assert rest[|rest| - |rest|..] == rest;
        }
        SuffixAfter(s, line, rest, rest);
      } else {
        ReadHeadersRest(rest, Absorb(h, line));
        SuffixAfter(s, line, rest, ReadHeaders(rest, Absorb(h, line)).1);
      }
    } else {
      assert s[|s|..] == [];
    }
  }

  /** One step of the loop: stop at the blank line, otherwise absorb the
      line and go on with the rest. */
  lemma ReadHeadersUnfold(s: string, h: Headers, line: string, rest: string)
    requires ReadString(s) == Line(line, rest)
    ensures s == line + rest
    ensures ReadHeaders(s, h) ==
      if line == "\r\n" then (h, rest) else ReadHeaders(rest, Absorb(h, line))
  {
  }

  /** A line the loop reads and absorbs rather than stopping at. */
  predicate IsHeaderLine(l: string) {
    IsLine(l) && l != "\r\n"
  }

  /** A header section closed by "\r\n": every line is absorbed, and reading
      stops exactly at the first byte after the blank line. */
  lemma {:induction false} ReadHeadersSection(h: Headers, lines: seq<string>, body: string)
    requires forall i :: 0 <= i < |lines| ==> IsHeaderLine(lines[i])
    ensures ReadHeaders(Concat(lines) + "\r\n" + body, h) == (AbsorbAll(h, lines), body)
    decreases |lines|
  {
    if lines == [] {
      assert Concat(lines) + "\r\n" + body == "\r\n" + body;
      ReadStringLine("\r\n", body);
    } else {
      var rest := Concat(lines[1..]) + "\r\n" + body;
      assert Concat(lines) + "\r\n" + body == lines[0] + rest;
      assert IsHeaderLine(lines[0]);
      ReadStringLine(lines[0], rest);
      ReadHeadersSection(Absorb(h, lines[0]), lines[1..], body);
    }
  }

  /** A header section cut short by the end of the stream: the lines read so
      far are kept, the partial last line is lost, and nothing is left. */
  lemma {:induction false} ReadHeadersCutShort(h: Headers, lines: seq<string>, tail: string)
    requires forall i :: 0 <= i < |lines| ==> IsHeaderLine(lines[i])
    requires '\n' !in tail
    ensures ReadHeaders(Concat(lines) + tail, h) == (AbsorbAll(h, lines), "")
    decreases |lines|
  {
    if lines == [] {
      assert Concat(lines) + tail == tail;
    } else {
      var rest := Concat(lines[1..]) + tail;
      assert Concat(lines) + tail == lines[0] + rest;
      assert IsHeaderLine(lines[0]);
      ReadStringLine(lines[0], rest);
      ReadHeadersCutShort(Absorb(h, lines[0]), lines[1..], tail);
    }
  }

  /** Only "\r\n" ends the headers: a bare "\n" line has no colon and is
      skipped like any other colon-less line. */
  lemma BareLineFeedDoesNotEndHeaders(h: Headers, rest: string)
    ensures ReadHeaders("\n" + rest, h) == ReadHeaders(rest, h)
  {
    assert IsLine("\n");
    ReadStringLine("\n", rest);
    assert "\n" != "\r\n";
    assert ParseHeaderLine("\n") == None by {
      assert ':' !in "\n";
    }
    assert Absorb(h, "\n") == h;
  }

  /** The wire form of one header field. */
  function FieldLine(name: string, value: string): string {
    name + ": " + value + "\r\n"
  }

  /** A field that survives the trip through `FieldLine` and
      `ParseHeaderLine` unchanged. */
  predicate WellFormedField(name: string, value: string) {
    && ':' !in name && '\n' !in name && '\n' !in value
    && Trimmed(name) && Trimmed(value)
  }

  /** The wire form of each field, in order. */
  function FieldLines(fields: seq<(string, string)>): (r: seq<string>)
    ensures |r| == |fields|
  {
    seq(|fields|, i requires 0 <= i < |fields| => FieldLine(fields[i].0, fields[i].1))
  }

  /** A field line without stray line feeds is read as one header line. */
  lemma FieldLineIsHeaderLine(name: string, value: string)
    requires '\n' !in name && '\n' !in value
    ensures IsHeaderLine(FieldLine(name, value))
  {
    CrLfLine(name + ": " + value);
    assert |FieldLine(name, value)| > 2;
  }

  /** Writing a well-formed field and parsing it back gives the field. */
  lemma FieldLineRoundTrip(name: string, value: string)
    requires WellFormedField(name, value)
    ensures IsHeaderLine(FieldLine(name, value))
    ensures ParseHeaderLine(FieldLine(name, value)) == Some((name, value))
  {
    FieldLineIsHeaderLine(name, value);
    var after := " " + value + "\r\n";
    assert FieldLine(name, value) == name + ":" + after;
    assert ParseHeaderLine(FieldLine(name, value)) == Some((TrimSpace(name), TrimSpace(after))) by {
      SplitAtFirstColon(name, after);
    }
    TrimSpaceOfTrimmed(name);
    TrimSpaceOfFieldValue(value);
  }

  lemma TrimSpaceOfFieldValue(value: string)
    requires Trimmed(value)
    ensures TrimSpace(" " + value + "\r\n") == value
  {
    assert AllSpace(" ") && AllSpace("\r\n");
    TrimSpacePadded(" ", value, "\r\n");
  }

  /** Every line of a list of well-formed fields is a header line that
      parses back to its field. */
  lemma FieldLinesRoundTrip(fields: seq<(string, string)>)
    requires forall i :: 0 <= i < |fields| ==> WellFormedField(fields[i].0, fields[i].1)
    ensures forall i :: 0 <= i < |fields| ==> IsHeaderLine(FieldLines(fields)[i])
    ensures forall i :: 0 <= i < |fields| ==>
      ParseHeaderLine(FieldLines(fields)[i]) == Some((fields[i].0, fields[i].1))
  {
    forall i | 0 <= i < |fields|
      ensures IsHeaderLine(FieldLines(fields)[i])
      ensures ParseHeaderLine(FieldLines(fields)[i]) == Some((fields[i].0, fields[i].1))
    {
      FieldLineRoundTrip(fields[i].0, fields[i].1);
    }
  }

  /** A header section of one well-formed field line yields exactly that
      field. */
  lemma SingleField(name: string, value: string)
    requires WellFormedField(name, value)
    ensures IsHeaderLine(FieldLine(name, value))
    ensures Concat([FieldLine(name, value)]) == FieldLine(name, value)
    ensures AbsorbAll(map[], [FieldLine(name, value)]) == map[name := value]
  {
    FieldLineRoundTrip(name, value);
    assert [FieldLine(name, value)][1..] == [];
  }

  /** The value stored for `name`, if any. */
  function Get(h: Headers, name: string): Option<string> {
    if name in h then Some(h[name]) else None
  }

  /** The value of the last field called `name`, found by searching from
      the back: the reference reading of "a later field replaces an earlier
      one". */
  function Lookup(fields: seq<(string, string)>, name: string): Option<string> {
    if fields == [] then None
    else if fields[|fields| - 1].0 == name then Some(fields[|fields| - 1].1)
    else Lookup(fields[..|fields| - 1], name)
  }

  lemma {:induction false} AbsorbAllSnoc(h: Headers, lines: seq<string>, line: string)
    ensures AbsorbAll(h, lines + [line]) == Absorb(AbsorbAll(h, lines), line)
    decreases |lines|
  {
    if lines == [] {
      assert lines + [line] == [line];
      assert [line][1..] == [];
    } else {
      assert (lines + [line])[0] == lines[0];
      assert (lines + [line])[1..] == lines[1..] + [line];
      AbsorbAllSnoc(Absorb(h, lines[0]), lines[1..], line);
    }
  }

  lemma FieldLinesSnoc(fields: seq<(string, string)>)
    requires fields != []
    ensures FieldLines(fields) ==
      FieldLines(fields[..|fields| - 1]) + [FieldLine(fields[|fields| - 1].0, fields[|fields| - 1].1)]
  {
    var n := |fields| - 1;
    var init := fields[..n];
    var a := FieldLines(fields);
    var front := FieldLines(init);
    var b := front + [FieldLine(fields[n].0, fields[n].1)];
    assert |a| == |b|;
    forall i | 0 <= i < |a|
      ensures a[i] == b[i]
    {
      if i < n {
        assert b[i] == front[i];
        assert init[i] == fields[i];
      }
    }
  }

  /** Parsing the wire form of a list of well-formed fields gives, for
      every name, the value of the last field with that name. */
  lemma {:induction false} ParsedFieldsLookup(fields: seq<(string, string)>, name: string)
    requires forall i :: 0 <= i < |fields| ==> WellFormedField(fields[i].0, fields[i].1)
    ensures Get(AbsorbAll(map[], FieldLines(fields)), name) == Lookup(fields, name)
    decreases |fields|
  {
    if fields != [] {
      var n := |fields| - 1;
      var init := fields[..n];
      var last := fields[n];
      var l := FieldLine(last.0, last.1);
      var prev := AbsorbAll(map[], FieldLines(init));
      assert AbsorbAll(map[], FieldLines(fields)) == Absorb(prev, l) by {
        FieldLinesSnoc(fields);
        AbsorbAllSnoc(map[], FieldLines(init), l);
      }
      assert Absorb(prev, l) == prev[last.0 := last.1] by {
        assert WellFormedField(last.0, last.1);
        FieldLineRoundTrip(last.0, last.1);
      }
      assert Get(prev, name) == Lookup(init, name) by {
        assert forall i :: 0 <= i < |init| ==> init[i] == fields[i];
        ParsedFieldsLookup(init, name);
      }
      assert Lookup(fields, name) == if last.0 == name then Some(last.1) else Lookup(init, name);
    }
  }
}
