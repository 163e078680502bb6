/** Byte ranges: the server's header parser, the client's check of what comes back, and the download loop that
    resumes from whatever an earlier attempt left. */
module RangeDownload {
  import opened Wrappers
  import opened Decimal

  type Byte = b: int | 0 <= b < 256
  type Bytes = seq<Byte>

  // ---------------------------------------------------------------- reading integers

  predicate IsSpace(c: char) {
    c in {' ', '\t', '\n', '\r', '\U{000B}', '\U{000C}', '\U{0085}', '\U{00A0}'} || '\U{001C}' <= c <= '\U{001F}'
  }

  function DropLeading(s: string): string {
    if s != [] && IsSpace(s[0]) then DropLeading(s[1..]) else s
  }

  function DropTrailing(s: string): string {
    if s != [] && IsSpace(s[|s| - 1]) then DropTrailing(s[..|s| - 1]) else s
  }

  function Strip(s: string): string { DropTrailing(DropLeading(s)) }

  /** Digits, in groups that single underscores may separate. */
  predicate IsGrouped(s: string) {
    && s != [] && IsDigit(s[0]) && IsDigit(s[|s| - 1])
    && forall i | 0 <= i < |s| :: IsDigit(s[i]) || (s[i] == '_' && (i > 0 ==> s[i - 1] != '_'))
  }

  function DigitsOf(s: string): (r: string)
    requires forall i | 0 <= i < |s| :: IsDigit(s[i]) || s[i] == '_'
    ensures AllDigits(r)
  {
    if s == [] then [] else (if s[0] == '_' then [] else [s[0]]) + DigitsOf(s[1..])
  }

  /** What Python's int() makes of a string. */
  function PyInt(text: string): Option<int> {
    var s := Strip(text);
    var signed := s != [] && s[0] in {'+', '-'};
    var digits := if signed then s[1..] else s;
    if !IsGrouped(digits) then None
    else
      var magnitude: int := ValueOf(DigitsOf(digits));
      Some(if signed && s[0] == '-' then -magnitude else magnitude)
  }

  lemma {:induction false} DigitsAreKept(s: string)
    requires AllDigits(s)
    ensures DigitsOf(s) == s
  {
    if s != [] {
      DigitsAreKept(s[1..]);
      assert s == [s[0]] + s[1..];
    }
  }

  lemma NothingToStrip(s: string)
    requires s != [] && !IsSpace(s[0]) && !IsSpace(s[|s| - 1])
    ensures Strip(s) == s
  {
  }

  lemma PyIntOfDigits(s: string)
    requires s != [] && AllDigits(s)
    ensures PyInt(s) == Some(ValueOf(s))
  {
    hide Strip, DigitsOf, ValueOf;
    NothingToStrip(s);
    DigitsAreKept(s);
  }

  lemma PyIntOfNumeral(n: nat)
    ensures PyInt(Numeral(n)) == Some(n)
  {
    NumeralIsCanonical(n);
    PyIntOfDigits(Numeral(n));
  }

  predicate AllSpace(s: string) { forall c | c in s :: IsSpace(c) }

  lemma {:induction false} LeadingSpace(before: string, s: string)
    requires AllSpace(before) && s != [] && !IsSpace(s[0])
    ensures DropLeading(before + s) == s
  {
    if before == [] {
      assert before + s == s;
    } else {
      assert (before + s)[0] == before[0] && (before + s)[1..] == before[1..] + s;
      LeadingSpace(before[1..], s);
    }
  }

  lemma {:induction false} TrailingSpace(s: string, after: string)
    requires AllSpace(after) && s != [] && !IsSpace(s[|s| - 1])
    ensures DropTrailing(s + after) == s
  {
    if after == [] {
      assert s + after == s;
    } else {
      var n := |after| - 1;
      assert (s + after)[|s| + n] == after[n] && (s + after)[..|s| + n] == s + after[..n];
      TrailingSpace(s, after[..n]);
    }
  }

  /** An integer may have white space around it, a sign, and underscores between its digits. */
  lemma PyIntOfSpelling(before: string, sign: string, digits: string, after: string)
    requires AllSpace(before) && AllSpace(after) && sign in {"", "+", "-"} && IsGrouped(digits)
    ensures PyInt(before + ((sign + digits) + after))
         == Some(if sign == "-" then -(ValueOf(DigitsOf(digits)) as int) else ValueOf(DigitsOf(digits)))
  {
    hide ValueOf, DigitsOf, DropLeading, DropTrailing;
    var s := sign + digits;
    assert s[0] == if sign == "" then digits[0] else sign[0];
    LeadingSpace(before, s + after);
    TrailingSpace(s, after);
    assert Strip(before + (s + after)) == s;
    if sign == "" { assert s == digits; } else { assert s[1..] == digits; }
  }

  lemma {:induction false} UnderscoresAreDropped(a: string, b: string)
    requires AllDigits(a) && AllDigits(b)
    ensures DigitsOf(a + ("_" + b)) == a + b
  {
    var s := a + ("_" + b);
    if a == [] {
      assert s == "_" + b && s[1..] == b;
      DigitsAreKept(b);
      assert DigitsOf(s) == [] + DigitsOf(b) == b;
    } else {
      assert s[1..] == a[1..] + ("_" + b);
      UnderscoresAreDropped(a[1..], b);
      assert DigitsOf(s) == [a[0]] + (a[1..] + b) == a + b;
    }
  }

  /** One underscore may stand between digits, two may not. */
  lemma UnderscoresStandAlone(a: string, b: string)
    requires AllDigits(a) && AllDigits(b) && a != "" && b != ""
    ensures IsGrouped(a + ("_" + b)) && !IsGrouped(a + ("__" + b))
  {
    assert (a + ("__" + b))[|a| + 1] == '_' && (a + ("__" + b))[|a|] == '_';
  }

  // ---------------------------------------------------------------- the server's parser

  function Find(s: string, c: char): (i: nat)
    ensures i <= |s| && (forall j | 0 <= j < i :: s[j] != c) && (i < |s| ==> s[i] == c)
  {
    if s == [] || s[0] == c then 0 else 1 + Find(s[1..], c)
  }

  lemma {:induction false} FindIs(s: string, c: char, i: nat)
    requires i <= |s| && (forall j | 0 <= j < i :: s[j] != c) && (i < |s| ==> s[i] == c)
    ensures Find(s, c) == i
  {
    if i > 0 { FindIs(s[1..], c, i - 1); }
  }

  predicate StartsWith(s: string, prefix: string) { |prefix| <= |s| && s[..|prefix|] == prefix }

  function Min(a: int, b: int): int { if a < b then a else b }

  /** One byte range of a representation, end exclusive; None is refused. */
  function ParseRange(header: string, size: nat): (r: Option<(nat, nat)>)
    ensures r.Some? ==> r.value.0 < r.value.1 <= size
  {
    if !StartsWith(header, "bytes=") then None
    else
      var spec := Strip(header[6..]);
      if ',' in spec then None
      else if StartsWith(spec, "-") then ParseSuffix(spec[1..], size)
      else
        var dash := Find(spec, '-');
        if dash == |spec| then None
        else ParseBounds(spec[..dash], spec[dash + 1..], size)
  }

  function ParseSuffix(text: string, size: nat): (r: Option<(nat, nat)>)
    ensures r.Some? ==> r.value.0 < r.value.1 <= size
  {
    match PyInt(text)
    case None => None
    case Some(suffix) =>
      if suffix <= 0 then None
      else
        var start := if size - suffix > 0 then size - suffix else 0;
        if start < size then Some((start, size)) else None
  }

  function ParseBounds(first: string, last: string, size: nat): (r: Option<(nat, nat)>)
    requires '-' !in first
    ensures r.Some? ==> r.value.0 < r.value.1 <= size
  {
    var start := PyInt(first);
    var end := if last != [] then PyInt(last) else Some(size - 1);
    if start.None? || end.None? then None
    else if start.value >= size || end.value + 1 <= start.value then None
    else
      NoMinusNoNegative(first);
      Some((start.value, Min(end.value + 1, size)))
  }

  lemma NoMinusNoNegative(s: string)
    requires '-' !in s
    ensures PyInt(s).Some? ==> PyInt(s).value >= 0
  {
    StripKeeps(s);
  }

  lemma StripKeeps(s: string)
    ensures forall c | c in Strip(s) :: c in s
  {
    LeadingKeeps(s);
    TrailingKeeps(DropLeading(s));
  }

  lemma {:induction false} LeadingKeeps(s: string)
    ensures forall c | c in DropLeading(s) :: c in s
  {
    if s != [] && IsSpace(s[0]) { LeadingKeeps(s[1..]); }
  }

  lemma {:induction false} TrailingKeeps(s: string)
    ensures forall c | c in DropTrailing(s) :: c in s
  {
    if s != [] && IsSpace(s[|s| - 1]) { TrailingKeeps(s[..|s| - 1]); }
  }

  lemma {:induction false} LeadingLosesSpace(s: string)
    ensures forall c | c in s && !IsSpace(c) :: c in DropLeading(s)
  {
    if s != [] && IsSpace(s[0]) {
      LeadingLosesSpace(s[1..]);
      assert s == [s[0]] + s[1..];
    }
  }

  lemma {:induction false} TrailingLosesSpace(s: string)
    ensures forall c | c in s && !IsSpace(c) :: c in DropTrailing(s)
  {
    if s != [] && IsSpace(s[|s| - 1]) {
      TrailingLosesSpace(s[..|s| - 1]);
      assert s == s[..|s| - 1] + [s[|s| - 1]];
    }
  }

  /** Other units, several ranges and a spec without a dash are refused. */
  lemma OneRangeOfBytes(header: string, size: nat)
    ensures ParseRange(header, size).Some? ==> StartsWith(header, "bytes=") && ',' !in header && '-' in header
  {
    hide DropLeading, DropTrailing;
    if ParseRange(header, size).Some? {
      var rest := header[6..];
      assert header == "bytes=" + rest;
      LeadingLosesSpace(rest);
      TrailingLosesSpace(DropLeading(rest));
      StripKeeps(rest);
      var spec := Strip(rest);
      assert ',' in rest ==> ',' in spec;
      assert '-' in spec by {
        if StartsWith(spec, "-") { assert spec[0] == spec[..1][0] == '-'; } else { assert spec[Find(spec, '-')] == '-'; }
      }
    }
  }

  function Dashed(a: string, b: string): string { a + ("-" + b) }

  function RangeHeader(first: nat, last: nat): string { "bytes=" + Dashed(Numeral(first), Numeral(last)) }

  lemma DashedParts(a: string, b: string)
    requires '-' !in a
    ensures Find(Dashed(a, b), '-') == |a| && Dashed(a, b)[..|a|] == a && Dashed(a, b)[|a| + 1..] == b
  {
    FindIs(Dashed(a, b), '-', |a|);
  }

  lemma NumeralIsPlain(n: nat)
    ensures Numeral(n) != [] && forall c | c in Numeral(n) :: IsDigit(c)
  {
    NumeralIsCanonical(n);
  }

  predicate Plain(s: string) { s != [] && forall c | c in s :: !IsSpace(c) && c != ',' }

  lemma PlainSpec(spec: string, size: nat)
    requires Plain(spec)
    ensures ParseRange("bytes=" + spec, size)
         == if spec[0] == '-' then ParseSuffix(spec[1..], size)
            else if Find(spec, '-') == |spec| then None
            else ParseBounds(spec[..Find(spec, '-')], spec[Find(spec, '-') + 1..], size)
  {
    hide Strip, ParseSuffix, ParseBounds, Find;
    var header := "bytes=" + spec;
    assert header[..6] == "bytes=" && header[6..] == spec;
    assert spec[0] in spec && spec[|spec| - 1] in spec;
    NothingToStrip(spec);
    assert spec[..1] == [spec[0]];
  }

  lemma BoundsParsed(a: string, b: string, first: nat, last: nat, size: nat)
    requires '-' !in a && b != [] && PyInt(a) == Some(first) && PyInt(b) == Some(last)
    ensures ParseBounds(a, b, size)
         == if first < size && first <= last then Some((first, Min(last + 1, size))) else None
  {
    hide PyInt;
  }

  lemma BoundsOfNumerals(first: nat, last: nat, size: nat)
    ensures '-' !in Numeral(first)
    ensures ParseBounds(Numeral(first), Numeral(last), size)
         == if first < size && first <= last then Some((first, Min(last + 1, size))) else None
  {
    NumeralIsPlain(first);
    NumeralIsPlain(last);
    PyIntOfNumeral(first);
    PyIntOfNumeral(last);
    BoundsParsed(Numeral(first), Numeral(last), first, last, size);
  }

  /** A range written out in digits is read back exactly, cut at the end of the file; it is refused exactly when
      it starts beyond the file or is empty (section 14.1.2 of RFC 9110). */
  lemma RangeRoundTrip(first: nat, last: nat, size: nat)
    ensures ParseRange(RangeHeader(first, last), size)
         == if first < size && first <= last then Some((first, Min(last + 1, size))) else None
  {
    NumeralIsPlain(first);
    NumeralIsPlain(last);
    BoundsOfNumerals(first, last, size);
    DashedRange(Numeral(first), Numeral(last), size);
  }

  lemma DashedRange(a: string, b: string, size: nat)
    requires a != [] && '-' !in a && forall c | c in a || c in b :: IsDigit(c)
    ensures ParseRange("bytes=" + Dashed(a, b), size) == ParseBounds(a, b, size)
  {
    DashedParts(a, b);
    var spec := Dashed(a, b);
    assert spec[0] == a[0] && a[0] in a;
    forall c | c in spec ensures !IsSpace(c) && c != ',' { assert c in a || c == '-' || c in b; }
    PlainSpec(spec, size);
  }

  /** The last n bytes, or all of a shorter file. */
  lemma SuffixRoundTrip(n: nat, size: nat)
    ensures ParseRange("bytes=-" + Numeral(n), size)
         == if n > 0 && size > 0 then Some((if n < size then size - n else 0, size)) else None
  {
    hide ParseRange, PyInt;
    var b := Numeral(n);
    var spec := "-" + b;
    NumeralIsPlain(n);
    assert Plain(spec) && spec[1..] == b;
    PlainSpec(spec, size);
    PyIntOfNumeral(n);
    assert "bytes=-" + b == "bytes=" + spec;
  }

  /** Everything from a place on. */
  lemma OpenRoundTrip(first: nat, size: nat)
    ensures ParseRange("bytes=" + Dashed(Numeral(first), ""), size) == if first < size then Some((first, size)) else None
  {
    hide ParseRange, PyInt;
    NumeralIsPlain(first);
    DashedRange(Numeral(first), "", size);
    PyIntOfNumeral(first);
  }

  // ---------------------------------------------------------------- the client's check

  function Slashed(a: string, b: string, c: string): string { a + "-" + b + "/" + c }

  function ContentRange(start: nat, end: nat, size: nat): string
    requires start < end
  {
    "bytes " + Slashed(Numeral(start), Numeral(end - 1), Numeral(size))
  }

  predicate IsDigits(s: string) { s != [] && AllDigits(s) }

  /** Accepted only if it is a non-empty range of the wanted size that starts where wanted. */
  function ParseContentRange(value: Option<string>, wantStart: nat, wantSize: nat): (r: Option<(nat, nat)>)
    ensures r.Some? ==> r.value.0 == wantStart < r.value.1 <= wantSize
  {
    if value.None? then None
    else
      var s := Strip(value.value);
      if !StartsWith(s, "bytes ") then None
      else
        var spec := s[6..];
        var dash, slash := Find(spec, '-'), Find(spec, '/');
        if !(dash < slash < |spec|) then None
        else CheckedRange(spec[..dash], spec[dash + 1..slash], spec[slash + 1..], wantStart, wantSize)
  }

  function CheckedRange(first: string, last: string, total: string, wantStart: nat, wantSize: nat): (r: Option<(nat, nat)>)
    ensures r.Some? ==> r.value.0 == wantStart < r.value.1 <= wantSize
  {
    if !IsDigits(first) || !IsDigits(last) || !IsDigits(total) then None
    else if ValueOf(total) != wantSize || ValueOf(first) != wantStart
         || !(ValueOf(first) <= ValueOf(last) < ValueOf(total)) then None
    else Some((ValueOf(first), ValueOf(last) + 1))
  }

  lemma CheckedNumerals(start: nat, last: nat, size: nat, wantStart: nat, wantSize: nat)
    requires start <= last < size
    ensures CheckedRange(Numeral(start), Numeral(last), Numeral(size), wantStart, wantSize)
         == if start == wantStart && size == wantSize then Some((start, last + 1)) else None
  {
    NumeralIsCanonical(start);
    NumeralIsCanonical(last);
    NumeralIsCanonical(size);
  }

  /** What the server says of a range, the client reads back (section 14.4 of RFC 9110). */
  lemma ContentRangeRoundTrip(start: nat, end: nat, size: nat, wantStart: nat, wantSize: nat)
    requires start < end <= size
    ensures ParseContentRange(Some(ContentRange(start, end, size)), wantStart, wantSize)
         == if start == wantStart && size == wantSize then Some((start, end)) else None
  {
    NumeralIsPlain(start);
    NumeralIsPlain(end - 1);
    NumeralIsPlain(size);
    ReadSlashed(Numeral(start), Numeral(end - 1), Numeral(size), wantStart, wantSize);
    CheckedNumerals(start, end - 1, size, wantStart, wantSize);
  }

  lemma ReadSlashed(a: string, b: string, c: string, wantStart: nat, wantSize: nat)
    requires c != [] && forall x | x in a || x in b || x in c :: IsDigit(x)
    ensures ParseContentRange(Some("bytes " + Slashed(a, b, c)), wantStart, wantSize)
         == CheckedRange(a, b, c, wantStart, wantSize)
  {
    hide Strip, CheckedRange, Find, Slashed;
    Separated(a, b, c);
    EndsAsLast(a, b, c);
    var s := "bytes " + Slashed(a, b, c);
    assert s[|s| - 1] == c[|c| - 1] && c[|c| - 1] in c && s[0] == 'b';
    NothingToStrip(s);
    assert s[..6] == "bytes " && s[6..] == Slashed(a, b, c);
  }

  lemma EndsAsLast(a: string, b: string, c: string)
    requires c != []
    ensures Slashed(a, b, c) != [] && Slashed(a, b, c)[|Slashed(a, b, c)| - 1] == c[|c| - 1]
  {
  }

  lemma Separated(a: string, b: string, c: string)
    requires forall x | x in a || x in b || x in c :: IsDigit(x)
    ensures var spec := Slashed(a, b, c);
            && Find(spec, '-') == |a| && Find(spec, '/') == |a| + 1 + |b| && |a| + 1 + |b| < |spec|
            && spec[..|a|] == a && spec[|a| + 1..|a| + 1 + |b|] == b && spec[|a| + 1 + |b| + 1..] == c
  {
    var spec := Slashed(a, b, c);
    assert forall i | 0 <= i < |a| :: spec[i] == a[i] && a[i] in a;
    assert forall i | |a| < i < |a| + 1 + |b| :: spec[i] == b[i - |a| - 1] && b[i - |a| - 1] in b;
    FindIs(spec, '-', |a|);
    FindIs(spec, '/', |a| + 1 + |b|);
  }

  // ---------------------------------------------------------------- serving

  datatype Response = Response(status: int, contentRange: Option<string>, body: Bytes)

  function Serve(file: Bytes, range: Option<string>): Response {
    if range.None? || range.value == "" then Response(200, None, file)
    else
      match ParseRange(range.value, |file|)
      case None => Response(416, Some("bytes */" + Numeral(|file|)), [])
      case Some((start, end)) => Response(206, Some(ContentRange(start, end, |file|)), file[start..end])
  }

  const FETCH_RANGE_BYTES: nat := 1048576

  /** A well-formed request for a range is answered with exactly those bytes, and the client's check passes. */
  lemma RangeIsServed(file: Bytes, off: nat, end: nat)
    requires off < end <= |file|
    ensures var response := Serve(file, Some(RangeHeader(off, end - 1)));
            && response.status == 206 && response.body == file[off..end]
            && ParseContentRange(response.contentRange, off, |file|) == Some((off, end))
  {
    hide RangeHeader, ParseContentRange, ContentRange, ParseRange, Serve;
    RangeRoundTrip(off, end - 1, |file|);
    HeaderIsThere(off, end - 1);
    ParsedIsServed(file, RangeHeader(off, end - 1), off, end);
  }

  /** An answer with a stretch of the file that the client takes for that. */
  predicate Answers(r: Response, file: Bytes, start: nat, end: nat) {
    && start < end <= |file| && r.status == 206 && r.body == file[start..end]
    && ParseContentRange(r.contentRange, start, |file|) == Some((start, end))
  }

  /** An answer that says only how long the file is (section 15.5.17 of RFC 9110). */
  predicate Refuses(r: Response, file: Bytes) {
    r.status == 416 && r.body == [] && r.contentRange == Some("bytes */" + Numeral(|file|))
  }

  /** The three forms of a range: from a place to a place, from a place to the end, and the last bytes. Each is
      answered if any byte of the file is in it, and refused otherwise. */
  lemma RangesAreServed(file: Bytes, first: nat, last: nat)
    ensures var size, bounded := |file|, Serve(file, Some("bytes=" + Dashed(Numeral(first), Numeral(last))));
            if first <= last && first < size then Answers(bounded, file, first, if last < size then last + 1 else size)
            else Refuses(bounded, file)
    ensures var open := Serve(file, Some("bytes=" + Dashed(Numeral(first), "")));
            if first < |file| then Answers(open, file, first, |file|) else Refuses(open, file)
    ensures var suffix := Serve(file, Some("bytes=-" + Numeral(last)));
            if last > 0 && file != [] then Answers(suffix, file, if last < |file| then |file| - last else 0, |file|)
            else Refuses(suffix, file)
  {
    hide ParseRange, Dashed, Answers, Refuses, Serve, Numeral;
    RangeRoundTrip(first, last, |file|);
    OpenRoundTrip(first, |file|);
    SuffixRoundTrip(last, |file|);
    ServedAsParsed(file, "bytes=" + Dashed(Numeral(first), Numeral(last)));
    ServedAsParsed(file, "bytes=" + Dashed(Numeral(first), ""));
    ServedAsParsed(file, "bytes=-" + Numeral(last));
  }

  lemma ServedAsParsed(file: Bytes, header: string)
    requires header != ""
    ensures match ParseRange(header, |file|)
            case None => Refuses(Serve(file, Some(header)), file)
            case Some((start, end)) => Answers(Serve(file, Some(header)), file, start, end)
  {
    hide ParseRange, ParseContentRange, ContentRange;
    if ParseRange(header, |file|).Some? {
      var (start, end) := ParseRange(header, |file|).value;
      ParsedIsServed(file, header, start, end);
    }
  }

  lemma WholeIsServed(file: Bytes)
    ensures Serve(file, None) == Response(200, None, file)
  {
  }

  lemma HeaderIsThere(first: nat, last: nat)
    ensures RangeHeader(first, last) != ""
  {
  }

  lemma ParsedIsServed(file: Bytes, header: string, start: nat, end: nat)
    requires header != "" && ParseRange(header, |file|) == Some((start, end))
    ensures Serve(file, Some(header)) == Response(206, Some(ContentRange(start, end, |file|)), file[start..end])
    ensures ParseContentRange(Some(ContentRange(start, end, |file|)), start, |file|) == Some((start, end))
  {
    hide ParseContentRange, ContentRange, ParseRange;
    ContentRangeRoundTrip(start, end, |file|, start, |file|);
  }

  // ---------------------------------------------------------------- the download

  datatype Outcome = Done | HashMismatch | BadEnvelope | InvalidPath | Unavailable | Killed

  /** One file on its way to its destination. `bound`: the sidecar that ties the staging file to this download is
      there. */
  class Download {
    const file: Bytes
    var staging: Option<Bytes>
    var bound: bool
    var installed: Option<Bytes>
    /** When set, the network answers, writes succeed, and the process is not killed. */
    var calm: bool

    constructor (file: Bytes)
      ensures this.file == file && Inv() && Truthful()
    {
      this.file := file;
      staging, bound, installed, calm := None, false, None, false;
    }

    /** Staging is never without its sidecar, unless a loss of power took that away. */
    predicate Inv() reads this { staging.Some? ==> bound }

    /** What is staged is a prefix of the remote file. */
    predicate Truthful() reads this { staging.Some? ==> staging.value <= file }

    /** The process may be killed here. */
    method Dies() returns (dead: bool)
      ensures calm ==> !dead
    {
      dead := *;
      if calm { dead := false; }
    }

    /** The answer to one request, unless the network fails. */
    method Request(range: Option<string>) returns (answer: Option<Response>)
      ensures answer.Some? ==> answer.value == Serve(file, range)
      ensures calm ==> answer.Some?
    {
      var fails: bool := *;
      if fails && !calm { return None; }
      return Some(Serve(file, range));
    }

    /** One request and its check: the next stretch of the file, or, for a small file, all of it. */
    method Fetch(off: nat) returns (r: Outcome, part: Bytes)
      requires off < |file|
      ensures r.Done? ==> 0 < |part| && off + |part| <= |file| && part == file[off..off + |part|]
      ensures r.Done? || r == Unavailable
      ensures calm ==> r.Done?
    {
      hide Serve, RangeHeader, ParseContentRange;
      var size := |file|;
      part := [];
      var end := Min(off + FETCH_RANGE_BYTES - 1, size - 1);
      var useRange := !(off == 0 && size <= FETCH_RANGE_BYTES);
      RangeIsServed(file, off, end + 1);
      WholeIsServed(file);
      var answer := Request(if useRange then Some(RangeHeader(off, end)) else None);
      if answer.None? { return Unavailable, part; }
      var response := answer.value;
      if response.status == 206 {
        if !useRange { return BadEnvelope, part; }
        var parsed := ParseContentRange(response.contentRange, off, size);
        if parsed.None? || |response.body| != parsed.value.1 - parsed.value.0 { return BadEnvelope, part; }
        if off + |response.body| > size || |response.body| == 0 { return BadEnvelope, part; }
        return Done, response.body;
      }
      if response.status == 200 {
        if useRange { return BadEnvelope, part; }
        if |response.body| != size { return HashMismatch, part; }
        return Done, response.body;
      }
      return BadEnvelope, part;
    }

    /** Bytes are appended to staging; a failure, or the death of the process, may come after some of them. */
    method Append(part: Bytes) returns (r: Outcome)
      requires staging.Some?
      modifies `staging
      ensures staging.Some? && old(staging).value <= staging.value <= old(staging).value + part
      ensures r.Done? ==> staging.value == old(staging).value + part
      ensures r == Done || r == InvalidPath || r == Killed
      ensures calm ==> r.Done?
    {
      var n: int := *;
      var fails: bool := *;
      var dead := Dies();
      if calm || (!fails && !dead) || !(0 <= n <= |part|) {
        staging := Some(staging.value + part);
        return Done;
      }
      staging := Some(staging.value + part[..n]);
      return if dead then Killed else InvalidPath;
    }

    /** Fetches and appends what is missing, request by request. Whatever interrupts it, staging has only grown, by
        bytes of the file at their places. */
    method FetchRest() returns (r: Outcome)
      requires staging.Some? && |staging.value| <= |file|
      modifies `staging
      ensures staging.Some? && |old(staging).value| <= |staging.value| <= |file|
      ensures staging.value[..|old(staging).value|] == old(staging).value
      ensures staging.value[|old(staging).value|..] == file[|old(staging).value|..|staging.value|]
      ensures r.Done? ==> |staging.value| == |file|
      ensures r == Done || r == Unavailable || r == InvalidPath || r == Killed
      ensures calm ==> r.Done?
    {
      r := Done;
      ghost var start := |staging.value|;
      while |staging.value| < |file|
        invariant staging.Some? && start <= |staging.value| <= |file| && r.Done?
        invariant staging.value[..start] == old(staging).value
        invariant staging.value[start..] == file[start..|staging.value|]
        decreases |file| - |staging.value|
      {
        var part: Bytes;
        r, part := Fetch(|staging.value|);
        if !r.Done? { return; }
        ghost var was := staging.value;
        r := Append(part);
        Appended(was, part, staging.value, start);
        if !r.Done? { return; }
      }
    }

    /** Some of the next bytes of the file, put after what is there. */
    lemma Appended(was: Bytes, part: Bytes, now: Bytes, start: nat)
      requires start <= |was| && |was| + |part| <= |file| && was[start..] == file[start..|was|]
      requires part == file[|was|..|was| + |part|] && was <= now <= was + part
      ensures now[..start] == was[..start] && now[start..] == file[start..|now|]
    {
      assert now == was + part[..|now| - |was|];
      assert now[start..] == was[start..] + part[..|now| - |was|];
    }

    /** Installs the staged bytes if their size and hash are right. */
    method Install() returns (r: Outcome)
      requires staging.Some?
      modifies `staging, `bound, `installed
      ensures if old(staging).value == file then r == Done || r == Killed else r == HashMismatch
      ensures r == HashMismatch ==> installed == old(installed) && staging == old(staging) && bound == old(bound)
      ensures r != HashMismatch ==> installed == Some(file) && staging.None? && (r.Done? ==> !bound)
      ensures calm ==> r != Killed
    {
      if staging.value != file { return HashMismatch; }
      installed, staging := staging, None;
      var dead := Dies();
      if dead { return Killed; }
      bound := false;
      return Done;
    }

    /** Throws the staging away: the file first, then its sidecar. */
    method Discard() returns (dead: bool)
      modifies `staging, `bound
      ensures staging.None? && (dead || !bound) && (calm ==> !dead)
    {
      staging := None;
      dead := Dies();
      if dead { return; }
      bound := false;
      dead := Dies();
    }

    /** Makes the download's staging: claims the sidecar, then creates the file, which must not be there. */
    method Claim() returns (r: Outcome)
      modifies `staging, `bound
      ensures bound && staging == (if r.Done? then Some([]) else old(staging)) && (r.Done? ==> old(staging).None?)
      ensures r == Done || r == Killed || (r == InvalidPath && old(staging).Some?)
      ensures calm ==> r != Killed && (r.Done? <==> old(staging).None?)
    {
      bound := true;
      var dead := Dies();
      if dead { return Killed; }
      if staging.Some? { return InvalidPath; }
      staging := Some([]);
      return Done;
    }

    /** What can be resumed: a staging file with its sidecar, not too long; one of full length is installed or, like one
        that is too long, thrown away. */
    method TakeUp() returns (r: Outcome, finished: bool)
      requires staging.Some? && bound
      modifies `staging, `bound, `installed
      ensures finished ==> (r == Done || r == Killed) && (calm ==> r == Done)
      ensures r == Done && finished ==> installed == Some(file)
      ensures installed == old(installed) || installed == Some(file)
      ensures old(Truthful()) ==> Truthful()
      ensures Inv()
      ensures finished ==> |old(staging).value| >= |file|
      ensures !finished ==> r == Done && installed == old(installed)
      ensures !finished ==> if |old(staging).value| >= |file| then staging.None? else staging == old(staging) && bound
      ensures !finished && |old(staging).value| >= |file| ==> old(staging).value != file
    {
      r, finished := Done, false;
      if |staging.value| == |file| {
        r := Install();
        if r != HashMismatch { return r, true; }
        r := Done;
      }
      if |staging.value| >= |file| {
        var dead := Discard();
        if dead { return Killed, true; }
      }
    }

    /** One run, from whatever earlier runs and losses of power left. It ends with the file installed or with an error;
        a mismatch leaves the whole wrong staging for the next run to throw away, and a staging file without its sidecar
        is refused, once: the refused run has claimed it for the next. */
    method Run() returns (r: Outcome)
      modifies `staging, `bound, `installed
      ensures installed == old(installed) || installed == Some(file)
      ensures r.Done? ==> installed == Some(file)
      ensures old(Inv()) ==> Inv()
      ensures old(Truthful()) ==> Truthful() && r != HashMismatch && r != BadEnvelope
      ensures calm ==> r == if old(installed) == Some(file) then Done else if old(!Inv()) then InvalidPath
                            else if old(Truthful() || Discards()) then Done else HashMismatch
      ensures calm && r == InvalidPath ==> Inv() && staging == old(staging)
      ensures r == HashMismatch ==> Inv() && Discards()
    {
      if installed == Some(file) { return Done; }
      if staging.Some? && bound {
        var finished: bool;
        r, finished := TakeUp();
        if finished { return; }
      }
      if !(staging.Some? && bound) {
        r := Claim();
        if !r.Done? { return; }
      }
      ghost var left := staging.value;
      r := FetchRest();
      assert (left <= file ==> staging.value <= file) && (|staging.value| == |file| ==> (staging.value == file <==> left <= file)) by {
        Glued(left);
      }
      if !r.Done? { return; }
      r := Install();
    }

    lemma Glued(left: Bytes)
      requires staging.Some? && |left| <= |staging.value| <= |file|
      requires staging.value[..|left|] == left && staging.value[|left|..] == file[|left|..|staging.value|]
      ensures left <= file ==> staging.value <= file
      ensures |staging.value| == |file| ==> (staging.value == file <==> left <= file)
    {
      assert staging.value == left + file[|left|..|staging.value|];
      assert left <= file ==> file[..|staging.value|] == left + file[|left|..|staging.value|];
    }

    /** The next run will throw the staging away and start again. */
    predicate Discards() reads this { staging.Some? && |staging.value| >= |file| }

    /** From any staging at all, spoiled or without its sidecar, three undisturbed runs install the file. */
    method ThreeRuns() returns (r: Outcome)
      requires calm
      modifies `staging, `bound, `installed
      ensures r.Done? && installed == Some(file)
    {
      r := Run();
      if !r.Done? { r := Run(); }
      if !r.Done? { r := Run(); }
    }

    /** After any number of runs, interrupted or killed anywhere, one undisturbed run installs the file. */
    method ResumeAfter(interrupted: nat) returns (r: Outcome)
      requires Inv() && Truthful()
      modifies `staging, `bound, `installed, `calm
      ensures r.Done? && installed == Some(file)
    {
      for i := 0 to interrupted
        invariant Inv() && Truthful()
      {
        var _ := Run();
      }
      calm := true;
      r := Run();
    }
  }
}
