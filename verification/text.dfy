/** The string and number primitives of Go's `strings` and `strconv`
    packages that the request pipeline relies on.  A Go string is a sequence
    of bytes; here every `char` stands for one byte (its code point is the
    byte value), so string literals read exactly as in the server. */
module Text {
  import opened Options

  // ---------------------------------------------------------------------
  // White space
  // ---------------------------------------------------------------------

  /** The ASCII white-space bytes recognised by `strings.Fields` and
      `strings.TrimSpace`: tab, line feed, vertical tab, form feed,
      carriage return and space. */
  predicate IsSpace(c: char) {
    c == ' ' || c == '\t' || c == '\n' || c == '\r' || c == '\U{000B}' || c == '\U{000C}'
  }

  predicate AllSpace(s: string) {
    forall i :: 0 <= i < |s| ==> IsSpace(s[i])
  }

  predicate NoSpace(s: string) {
    forall i :: 0 <= i < |s| ==> !IsSpace(s[i])
  }

  /** A field in the sense of `strings.Fields`: a non-empty run of
      non-space bytes. */
  predicate IsField(s: string) {
    |s| > 0 && NoSpace(s)
  }

  /** Neither end of `s` is white space. */
  predicate Trimmed(s: string) {
    s == [] || (!IsSpace(s[0]) && !IsSpace(s[|s| - 1]))
  }

  /** The strings of `ss` joined end to end. */
  function Concat(ss: seq<string>): string {
    if ss == [] then [] else ss[0] + Concat(ss[1..])
  }

  /** `s` with every white-space byte removed. */
  function Squeeze(s: string): string {
    if s == [] then [] else (if IsSpace(s[0]) then [] else [s[0]]) + Squeeze(s[1..])
  }

  /** Regrouping a concatenation, proved on its own so that the proofs
      about whole requests do not have to redo it among the serving
      functions. */
  lemma Regroup(a: string, b: string, c: string, d: string)
    ensures a + b + c + d == a + (b + c + d)
  {
  }

  lemma Regroup3(a: string, b: string, c: string)
    ensures a + b + c == a + (b + c)
  {
  }

  /** `t` is what is left of `s` once some prefix has been consumed. */
  predicate IsSuffix(t: string, s: string) {
    |t| <= |s| && t == s[|s| - |t|..]
  }

  /** A suffix of `b` is a suffix of anything `b` ends. */
  lemma SuffixAfter(s: string, a: string, b: string, t: string)
    requires s == a + b && IsSuffix(t, b)
    ensures IsSuffix(t, s)
  {
    forall j | |s| - |t| <= j < |s|
      ensures s[j] == b[j - |a|]
    {
    }
  }

  lemma SqueezeAppend(a: string, b: string)
    ensures Squeeze(a + b) == Squeeze(a) + Squeeze(b)
  {
    if a != [] {
      assert (a + b)[0] == a[0];
      assert (a + b)[1..] == a[1..] + b;
      SqueezeAppend(a[1..], b);
    } else {
      assert a + b == b;
    }
  }

  lemma SqueezeNoSpace(s: string)
    requires NoSpace(s)
    ensures Squeeze(s) == s
  {
    if s != [] {
      SqueezeNoSpace(s[1..]);
    }
  }

  // ---------------------------------------------------------------------
  // strings.Fields
  // ---------------------------------------------------------------------

  /** Length of the run of non-space bytes at the front of `s`. */
  function FieldLength(s: string): (n: nat)
    ensures n <= |s|
    ensures NoSpace(s[..n])
    ensures n < |s| ==> IsSpace(s[n])
  {
    if s == [] || IsSpace(s[0]) then 0
    else
      var n := 1 + FieldLength(s[1..]);
      assert s[..n] == [s[0]] + s[1..][..n - 1];
      n
  }

  /** `strings.Fields`: the maximal runs of non-space bytes of `s`, in order.
      Every result is a field, and together they hold exactly the non-space
      bytes of `s`. */
  function Fields(s: string): (r: seq<string>)
    ensures forall i :: 0 <= i < |r| ==> IsField(r[i])
    ensures Concat(r) == Squeeze(s)
    decreases |s|
  {
    if s == [] then []
    else if IsSpace(s[0]) then
      assert Squeeze(s) == Squeeze(s[1..]);
      Fields(s[1..])
    else
      var n := FieldLength(s);
      var rest := Fields(s[n..]);
      assert s == s[..n] + s[n..];
      SqueezeAppend(s[..n], s[n..]);
      SqueezeNoSpace(s[..n]);
      assert ([s[..n]] + rest)[1..] == rest;
      [s[..n]] + rest
  }

  /** Leading white space does not change the fields. */
  lemma {:induction false} FieldsSkipSpace(sp: string, s: string)
    requires AllSpace(sp)
    ensures Fields(sp + s) == Fields(s)
  {
    if sp != [] {
      assert (sp + s)[0] == sp[0];
      assert (sp + s)[1..] == sp[1..] + s;
      FieldsSkipSpace(sp[1..], s);
    } else {
      assert sp + s == s;
    }
  }

  /** A field followed by white space (or nothing) is split off whole. */
  lemma FieldsTakeField(t: string, s: string)
    requires IsField(t)
    requires s == [] || IsSpace(s[0])
    ensures Fields(t + s) == [t] + Fields(s)
  {
    var n := FieldLength(t + s);
    assert forall k :: 0 <= k < |t| ==> (t + s)[k] == t[k];
    assert |t| < |t + s| ==> (t + s)[|t|] == s[0];
    assert n == |t|;
    assert (t + s)[..n] == t;
    assert (t + s)[n..] == s;
  }

  /** Fields `ts` laid out with white space around them: `gaps[0]` before
      the first, `gaps[i]` between `ts[i - 1]` and `ts[i]`, and the last
      gap after the last field. */
  function Layout(ts: seq<string>, gaps: seq<string>): string
    requires |gaps| == |ts| + 1
    decreases |ts|
  {
    if ts == [] then gaps[0] else gaps[0] + ts[0] + Layout(ts[1..], gaps[1..])
  }

  /** Every gap is white space, and the ones between two fields are not
      empty. */
  predicate Spacing(ts: seq<string>, gaps: seq<string>) {
    && |gaps| == |ts| + 1
    && (forall i :: 0 <= i < |gaps| ==> AllSpace(gaps[i]))
    && (forall i :: 0 < i < |ts| ==> gaps[i] != [])
  }

  /** A laid-out string starts with its first gap, or with its first field
      when that gap is empty. */
  lemma LayoutStart(ts: seq<string>, gaps: seq<string>)
    requires |gaps| == |ts| + 1
    requires forall i :: 0 <= i < |ts| ==> IsField(ts[i])
    requires ts != [] || gaps[0] != []
    ensures |Layout(ts, gaps)| > 0
    ensures gaps[0] != [] ==> Layout(ts, gaps)[0] == gaps[0][0]
    ensures gaps[0] == [] ==> ts != [] && |ts[0]| > 0 && Layout(ts, gaps)[0] == ts[0][0]
  {
    if ts != [] {
      assert IsField(ts[0]);
    }
  }

  /** Any white space in front of a layout joins its first gap. */
  lemma LayoutPrepend(ts: seq<string>, gaps: seq<string>, sp: string)
    requires |gaps| == |ts| + 1
    ensures Layout(ts, [sp + gaps[0]] + gaps[1..]) == sp + Layout(ts, gaps)
  {
    var gaps' := [sp + gaps[0]] + gaps[1..];
    assert gaps'[1..] == gaps[1..];
  }

  /** `strings.Fields` splits at every run of white space and nowhere else:
      fields laid out with any white space before, between and after them
      come back exactly. */
  lemma {:induction false} FieldsOfLayout(ts: seq<string>, gaps: seq<string>)
    requires forall i :: 0 <= i < |ts| ==> IsField(ts[i])
    requires Spacing(ts, gaps)
    ensures Fields(Layout(ts, gaps)) == ts
    decreases |ts|
  {
    if ts == [] {
      assert AllSpace(gaps[0]);
      FieldsSkipSpace(gaps[0], []);
      assert gaps[0] + [] == gaps[0];
    } else {
      assert Spacing(ts[1..], gaps[1..]) by {
        assert forall i :: 0 <= i < |gaps| - 1 ==> gaps[1..][i] == gaps[i + 1];
      }
      FieldsOfLayout(ts[1..], gaps[1..]);
      FieldsLayoutStep(ts, gaps);
    }
  }

  /** The first field of a layout is split off whole, after its gap. */
  lemma FieldsLayoutStep(ts: seq<string>, gaps: seq<string>)
    requires ts != [] && Spacing(ts, gaps)
    requires forall i :: 0 <= i < |ts| ==> IsField(ts[i])
    requires Fields(Layout(ts[1..], gaps[1..])) == ts[1..]
    ensures Fields(Layout(ts, gaps)) == ts
  {
    var rest := Layout(ts[1..], gaps[1..]);
    assert AllSpace(gaps[0]) && AllSpace(gaps[1]) && IsField(ts[0]);
    assert rest == [] || IsSpace(rest[0]) by {
      if |ts| > 1 {
        assert gaps[1] != [];
        LayoutStart(ts[1..], gaps[1..]);
      }
    }
    assert Layout(ts, gaps) == gaps[0] + (ts[0] + rest);
    FieldsSkipSpace(gaps[0], ts[0] + rest);
    FieldsTakeField(ts[0], rest);
    assert ts == [ts[0]] + ts[1..];
  }

  /** A white-space byte in front of a layout joins its first gap. */
  lemma LayoutAfterSpace(c: char, ts: seq<string>, g: seq<string>)
    requires IsSpace(c) && Spacing(ts, g)
    ensures Spacing(ts, [[c] + g[0]] + g[1..])
    ensures Layout(ts, [[c] + g[0]] + g[1..]) == [c] + Layout(ts, g)
  {
    var gaps := [[c] + g[0]] + g[1..];
    assert AllSpace(g[0]);
    assert forall i :: 0 < i < |gaps| ==> gaps[i] == g[i];
    LayoutPrepend(ts, g, [c]);
  }

  /** A field in front of a layout that starts with white space (or is
      empty) becomes its first field, with an empty gap before it. */
  lemma LayoutAfterField(t: string, ts: seq<string>, g: seq<string>)
    requires IsField(t) && Spacing(ts, g)
    requires forall i :: 0 <= i < |ts| ==> IsField(ts[i])
    requires Layout(ts, g) == [] || IsSpace(Layout(ts, g)[0])
    ensures Spacing([t] + ts, [[]] + g)
    ensures Layout([t] + ts, [[]] + g) == t + Layout(ts, g)
  {
    var gaps := [[]] + g;
    assert g[0] == [] ==> ts == [] by {
      if g[0] == [] && ts != [] {
        LayoutStart(ts, g);
      }
    }
    assert Spacing([t] + ts, gaps) by {
      assert forall i :: 0 < i < |gaps| ==> gaps[i] == g[i - 1];
    }
    LayoutCons(t, ts, g);
  }

  lemma LayoutCons(t: string, ts: seq<string>, g: seq<string>)
    requires |g| == |ts| + 1
    ensures Layout([t] + ts, [[]] + g) == t + Layout(ts, g)
  {
    assert ([t] + ts)[1..] == ts && ([[]] + g)[1..] == g;
    assert [] + t == t;
  }

  /** Conversely every string is the layout of its fields, so `Fields` is
      pinned down by `FieldsOfLayout`: the gaps are the white-space runs
      of `s`. */
  lemma {:induction false} LayoutOfFields(s: string) returns (gaps: seq<string>)
    ensures Spacing(Fields(s), gaps)
    ensures Layout(Fields(s), gaps) == s
    decreases |s|
  {
    if s == [] {
      gaps := [[]];
    } else if IsSpace(s[0]) {
      var g := LayoutOfFields(s[1..]);
      gaps := [[s[0]] + g[0]] + g[1..];
      LayoutAfterSpace(s[0], Fields(s[1..]), g);
      assert s == [s[0]] + s[1..];
    } else {
      var n := FieldLength(s);
      assert n >= 1;
      var g := LayoutOfFields(s[n..]);
      gaps := [[]] + g;
      LayoutAfterField(s[..n], Fields(s[n..]), g);
      assert s == s[..n] + s[n..];
    }
  }

  // ---------------------------------------------------------------------
  // strings.TrimSpace
  // ---------------------------------------------------------------------

  /** The number of white-space bytes at the front of `s`. */
  function LeadingSpace(s: string): (n: nat)
    ensures n <= |s| && AllSpace(s[..n])
    ensures n < |s| ==> !IsSpace(s[n])
  {
    if s != [] && IsSpace(s[0]) then
      var n := 1 + LeadingSpace(s[1..]);
      assert s[..n] == [s[0]] + s[1..][..n - 1];
      n
    else 0
  }

  /** `s` without its trailing white space. */
  function TrimRight(s: string): (r: string)
    ensures |r| <= |s| && r == s[..|r|]
    ensures AllSpace(s[|r|..])
    ensures r == [] || !IsSpace(r[|r| - 1])
  {
    if s != [] && IsSpace(s[|s| - 1]) then
      var r := TrimRight(s[..|s| - 1]);
      assert s[|r|..] == s[..|s| - 1][|r|..] + [s[|s| - 1]];
      r
    else s
  }

  /** `strings.TrimSpace`: the part of `s` left once the white space at both
      ends is cut away.  It starts right after the leading white space and
      only white space follows it. */
  function TrimSpace(s: string): (r: string)
    ensures Trimmed(r)
    ensures LeadingSpace(s) + |r| <= |s|
    ensures r == s[LeadingSpace(s)..LeadingSpace(s) + |r|]
    ensures AllSpace(s[LeadingSpace(s) + |r|..])
  {
    var i := LeadingSpace(s);
    var r := TrimRight(s[i..]);
    assert s[i + |r|..] == s[i..][|r|..];
    r
  }

  lemma {:induction false} LeadingSpacePadded(pre: string, t: string)
    requires AllSpace(pre)
    requires t == [] || !IsSpace(t[0])
    ensures LeadingSpace(pre + t) == |pre|
  {
    if pre != [] {
      assert (pre + t)[0] == pre[0];
      assert (pre + t)[1..] == pre[1..] + t;
      LeadingSpacePadded(pre[1..], t);
    } else {
      assert pre + t == t;
    }
  }

  lemma {:induction false} TrimRightPadded(t: string, suf: string)
    requires AllSpace(suf)
    requires t == [] || !IsSpace(t[|t| - 1])
    ensures TrimRight(t + suf) == t
  {
    if suf != [] {
      assert (t + suf)[..|t + suf| - 1] == t + suf[..|suf| - 1];
      TrimRightPadded(t, suf[..|suf| - 1]);
    } else {
      assert t + suf == t;
    }
  }

  /** Trimming is exact: white space around a trimmed string is all that
      `TrimSpace` removes. */
  lemma TrimSpacePadded(pre: string, t: string, suf: string)
    requires AllSpace(pre) && AllSpace(suf) && Trimmed(t)
    ensures TrimSpace(pre + t + suf) == t
  {
    var s := pre + t + suf;
    if t == [] {
      assert s == pre + suf + [];
      assert AllSpace(pre + suf);
      LeadingSpacePadded(pre + suf, []);
      assert s[|s|..] == [];
    } else {
      assert s == pre + (t + suf);
      LeadingSpacePadded(pre, t + suf);
      assert s[|pre|..] == t + suf;
      TrimRightPadded(t, suf);
    }
  }

  /** A trimmed string is its own trimming. */
  lemma TrimSpaceOfTrimmed(t: string)
    requires Trimmed(t)
    ensures TrimSpace(t) == t
  {
    TrimSpacePadded([], t, []);
    assert [] + t + [] == t;
  }

  /** `TrimSpace` is idempotent. */
  lemma TrimSpaceIdempotent(s: string)
    ensures TrimSpace(TrimSpace(s)) == TrimSpace(s)
  {
    var t := TrimSpace(s);
    TrimSpacePadded([], t, []);
    assert [] + t + [] == t;
  }

  // ---------------------------------------------------------------------
  // Searching and prefixes
  // ---------------------------------------------------------------------

  /** The position of the first `c` in `s`, if any. */
  function IndexOf(s: string, c: char): (r: Option<nat>)
    ensures r.None? <==> c !in s
    ensures r.Some? ==> r.value < |s| && s[r.value] == c && c !in s[..r.value]
  {
    if s == [] then None
    else if s[0] == c then Some(0)
    else
      match IndexOf(s[1..], c)
      case None => None
      case Some(i) =>
        assert s[..i + 1] == [s[0]] + s[1..][..i];
        Some(i + 1)
  }

  /** The first occurrence is unique: any position holding `c` with no `c`
      before it is the one `IndexOf` reports. */
  lemma IndexOfIsFirst(s: string, c: char, i: nat)
    requires i < |s| && s[i] == c && c !in s[..i]
    ensures IndexOf(s, c) == Some(i)
  {
    var r := IndexOf(s, c);
    assert s[i] in s;
    var j := r.value;
    assert forall k :: 0 <= k < i ==> s[..i][k] == s[k];
    assert forall k :: 0 <= k < j ==> s[..j][k] == s[k];
  }

  /** `strings.TrimPrefix`. */
  function TrimPrefix(s: string, prefix: string): (r: string)
    ensures prefix <= s ==> s == prefix + r
    ensures !(prefix <= s) ==> r == s
  {
    if prefix <= s then s[|prefix|..] else s
  }

  // ---------------------------------------------------------------------
  // Decimal numbers: strconv.Atoi and fmt's %d
  // ---------------------------------------------------------------------

  const MaxInt: int := 0x7fff_ffff_ffff_ffff
  const MinInt: int := -0x8000_0000_0000_0000

  predicate IsDigit(c: char) {
    '0' <= c <= '9'
  }

  predicate AllDigits(s: string) {
    forall i :: 0 <= i < |s| ==> IsDigit(s[i])
  }

  function DigitValue(c: char): nat
    requires IsDigit(c)
  {
    c as int - '0' as int
  }

  function Digit(d: nat): (c: char)
    requires d < 10
    ensures IsDigit(c) && DigitValue(c) == d
  {
    ('0' as int + d) as char
  }

  /** The number a string of decimal digits denotes, most significant first. */
  function DecimalValue(s: string): nat
    requires AllDigits(s)
  {
    if s == [] then 0 else 10 * DecimalValue(s[..|s| - 1]) + DigitValue(s[|s| - 1])
  }

  /** The decimal rendering of a non-negative integer, as `%d` prints it:
      digits only, no leading zero, and denoting `n`. */
  function FormatDecimal(n: nat): (r: string)
    ensures |r| > 0 && AllDigits(r)
    ensures DecimalValue(r) == n
    ensures r[0] == '0' ==> r == "0"
  {
    if n < 10 then [Digit(n)]
    else
      var r := FormatDecimal(n / 10) + [Digit(n % 10)];
      assert r[..|r| - 1] == FormatDecimal(n / 10);
      r
  }

  /** `strconv.Atoi` on a 64-bit platform: an optional `+` or `-` followed by
      at least one decimal digit, whose value fits in a signed 64-bit
      integer.  Anything else is an error. */
  function Atoi(s: string): (r: Option<int>)
    ensures r.Some? ==> MinInt <= r.value <= MaxInt
    ensures r.Some? ==> |s| > 0 && (IsDigit(s[0]) || s[0] == '+' || s[0] == '-')
  {
    if s == [] then None
    else
      var signed := s[0] == '+' || s[0] == '-';
      var digits := if signed then s[1..] else s;
      if digits == [] || !AllDigits(digits) then None
      else
        var v := if s[0] == '-' then -(DecimalValue(digits) as int) else DecimalValue(digits);
        if v < MinInt || MaxInt < v then None else Some(v)
  }

  /** What `%d` prints, `Atoi` reads back. */
  lemma AtoiFormatDecimal(n: nat)
    requires n <= MaxInt
    ensures Atoi(FormatDecimal(n)) == Some(n)
  {
  }

  /** A minus sign makes a negative length that `Atoi` still accepts. */
  lemma AtoiNegative(n: nat)
    requires 0 < n <= MaxInt
    ensures Atoi("-" + FormatDecimal(n)) == Some(-(n as int))
  {
    assert ("-" + FormatDecimal(n))[1..] == FormatDecimal(n);
  }

  /** What `Atoi` accepts: an optional sign and a non-empty run of digits
      (leading zeros allowed) is read as its signed value, unless that value
      does not fit in 64 bits. */
  lemma AtoiDigits(sign: string, d: string)
    requires sign == "" || sign == "+" || sign == "-"
    requires |d| > 0 && AllDigits(d)
    ensures var v := if sign == "-" then -(DecimalValue(d) as int) else DecimalValue(d) as int;
      Atoi(sign + d) == if MinInt <= v <= MaxInt then Some(v) else None
  {
    var s := sign + d;
    var v := DecimalValue(d) as int;
    if sign == "" {
      assert s == d;
      assert IsDigit(d[0]);
      assert !(s[0] == '+' || s[0] == '-');
      assert Atoi(s) == if v <= MaxInt then Some(v) else None;
    } else if sign == "+" {
      assert s[0] == '+' && s[1..] == d;
      assert Atoi(s) == if v <= MaxInt then Some(v) else None;
    } else {
      assert s[0] == '-' && s[1..] == d;
      assert Atoi(s) == if MinInt <= -v then Some(-v) else None;
    }
  }

  /** What `Atoi` rejects: any byte other than a digit, white space
      included, anywhere but as a leading sign; and a sign with no digits
      after it, or nothing at all. */
  lemma AtoiRejectsNonDigit(s: string, i: nat)
    requires i < |s| && !IsDigit(s[i])
    requires i > 0 || (s[0] != '+' && s[0] != '-')
    ensures Atoi(s) == None
  {
    if i > 0 && (s[0] == '+' || s[0] == '-') {
      assert s[1..][i - 1] == s[i];
    }
  }

  lemma AtoiNeedsDigits(sign: string)
    requires sign == "" || sign == "+" || sign == "-"
    ensures Atoi(sign) == None
  {
    if sign != "" {
      assert sign[1..] == [];
    }
  }

  /** A decimal rendering holds no white space, so it is its own trimming
      and has no line feed. */
  lemma FormatDecimalNoSpace(n: nat)
    ensures NoSpace(FormatDecimal(n)) && Trimmed(FormatDecimal(n))
    ensures '\n' !in FormatDecimal(n) && ':' !in FormatDecimal(n)
  {
    var r := FormatDecimal(n);
    assert forall i :: 0 <= i < |r| ==> IsDigit(r[i]);
  }
}
