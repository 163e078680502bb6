/** Manifest paths in URLs: what a manifest may name, how a client writes it percent-encoded, and how the server
    reads it back. */
module ContentPath {
  import opened Wrappers

  /** A Unicode scalar value. */
  type Scalar = x: int | 0 <= x < 0x110000 && !(0xD800 <= x < 0xE000)

  type Text = seq<Scalar>

  type Byte = b: int | 0 <= b < 256

  const SLASH: Scalar := 0x2F
  const BACKSLASH: Scalar := 0x5C
  const PERCENT: Scalar := 0x25
  const QUESTION: Scalar := 0x3F
  const DOT: Text := [0x2E]
  const DOTDOT: Text := [0x2E, 0x2E]
  /** "api" and "__manure". */
  const RESERVED: set<Text> := {[0x61, 0x70, 0x69], [0x5F, 0x5F, 0x6D, 0x61, 0x6E, 0x75, 0x72, 0x65]}

  // ---------------------------------------------------------------- UTF-8

  function Utf8One(s: Scalar): (r: seq<Byte>)
    ensures 1 <= |r| <= 4
  {
    if s < 0x80 then [s]
    else if s < 0x800 then [0xC0 + s / 0x40, 0x80 + s % 0x40]
    else if s < 0x10000 then [0xE0 + s / 0x1000, 0x80 + s / 0x40 % 0x40, 0x80 + s % 0x40]
    else [0xF0 + s / 0x40000, 0x80 + s / 0x1000 % 0x40, 0x80 + s / 0x40 % 0x40, 0x80 + s % 0x40]
  }

  function Utf8(t: Text): seq<Byte> { if t == [] then [] else Utf8One(t[0]) + Utf8(t[1..]) }

  predicate Trail(b: seq<Byte>, i: nat) { i < |b| && 0x80 <= b[i] < 0xC0 }

  datatype Read = Read(s: Scalar, taken: nat)

  /** The number in the low six bits. */
  function Low(b: Byte): int { b as int - 0x80 }

  /** The first scalar of a byte string and the bytes it takes; overlong forms and surrogates are refused. */
  function DecodeOne(b: seq<Byte>): (r: Option<Read>)
    requires b != []
    ensures r.Some? ==> 1 <= r.value.taken <= |b|
  {
    var lead: int := b[0];
    if lead < 0x80 then Some(Read(lead, 1))
    else if 0xC0 <= lead < 0xE0 && Trail(b, 1) then InRange((lead - 0xC0) * 0x40 + Low(b[1]), 0x80, 2)
    else if 0xE0 <= lead < 0xF0 && Trail(b, 1) && Trail(b, 2) then
      InRange((lead - 0xE0) * 0x1000 + Low(b[1]) * 0x40 + Low(b[2]), 0x800, 3)
    else if 0xF0 <= lead < 0xF8 && Trail(b, 1) && Trail(b, 2) && Trail(b, 3) then
      InRange((lead - 0xF0) * 0x40000 + Low(b[1]) * 0x1000 + Low(b[2]) * 0x40 + Low(b[3]), 0x10000, 4)
    else None
  }

  function InRange(x: int, least: nat, taken: nat): (r: Option<Read>)
    ensures r.Some? ==> r.value.s == x && r.value.taken == taken && x >= least
  {
    if least <= x < 0x110000 && !(0xD800 <= x < 0xE000) then Some(Read(x, taken)) else None
  }

  function DecodeUtf8(b: seq<Byte>): Option<Text> {
    if b == [] then Some([])
    else
      match DecodeOne(b)
      case None => None
      case Some(one) =>
        match DecodeUtf8(b[one.taken..])
        case None => None
        case Some(t) => Some([one.s] + t)
  }

  lemma DecodeOneOfEncoded(s: Scalar, rest: seq<Byte>)
    ensures DecodeOne(Utf8One(s) + rest) == Some(Read(s, |Utf8One(s)|))
  {
    var b := Utf8One(s) + rest;
    assert b[..|Utf8One(s)|] == Utf8One(s);
    assert s / 0x40 / 0x40 == s / 0x1000 && s / 0x1000 / 0x40 == s / 0x40000;
  }

  /** What is put together from sixty-fourths comes apart again. */
  lemma Parts(high: nat, low: nat)
    requires low < 0x40
    ensures (high * 0x40 + low) / 0x40 == high && (high * 0x40 + low) % 0x40 == low
  {
  }

  lemma EncodedOfDecodeOne(b: seq<Byte>)
    requires b != [] && DecodeOne(b).Some?
    ensures Utf8One(DecodeOne(b).value.s) == b[..DecodeOne(b).value.taken]
  {
    var taken := DecodeOne(b).value.taken;
    if taken <= 2 {
      if taken == 2 { Parts(b[0] - 0xC0, Low(b[1])); }
    } else if taken == 3 {
      EncodedOfThree(b);
    } else {
      EncodedOfFour(b);
    }
  }

  lemma EncodedOfThree(b: seq<Byte>)
    requires b != [] && DecodeOne(b).Some? && DecodeOne(b).value.taken == 3
    ensures Utf8One(DecodeOne(b).value.s) == b[..3]
  {
    var s, lead := DecodeOne(b).value.s, b[0] as int;
    var x := (lead - 0xE0) * 0x40 + Low(b[1]);
    assert s == x * 0x40 + Low(b[2]);
    Parts(x, Low(b[2]));
    Parts(lead - 0xE0, Low(b[1]));
    Quarters(s);
  }

  lemma EncodedOfFour(b: seq<Byte>)
    requires b != [] && DecodeOne(b).Some? && DecodeOne(b).value.taken == 4
    ensures Utf8One(DecodeOne(b).value.s) == b[..4]
  {
    var s, lead := DecodeOne(b).value.s, b[0] as int;
    var y := (lead - 0xF0) * 0x40 + Low(b[1]);
    var x := y * 0x40 + Low(b[2]);
    assert s == x * 0x40 + Low(b[3]);
    Parts(x, Low(b[3]));
    Parts(y, Low(b[2]));
    Parts(lead - 0xF0, Low(b[1]));
    Quarters(s);
  }

  lemma Quarters(s: nat)
    ensures s / 0x1000 == s / 0x40 / 0x40 && s / 0x40000 == s / 0x40 / 0x40 / 0x40
  {
  }

  /** Encoding and strict decoding are inverse, both ways. */
  lemma {:induction false} Utf8RoundTrip(t: Text)
    ensures DecodeUtf8(Utf8(t)) == Some(t)
  {
    hide DecodeOne, Utf8One;
    if t != [] {
      DecodeOneOfEncoded(t[0], Utf8(t[1..]));
      Utf8RoundTrip(t[1..]);
      assert Utf8(t)[|Utf8One(t[0])|..] == Utf8(t[1..]);
      assert [t[0]] + t[1..] == t;
    }
  }

  lemma {:induction false} DecodedIsUtf8(b: seq<Byte>)
    requires DecodeUtf8(b).Some?
    ensures Utf8(DecodeUtf8(b).value) == b
  {
    hide DecodeOne, Utf8One;
    if b != [] {
      EncodedOfDecodeOne(b);
      var taken := DecodeOne(b).value.taken;
      DecodedIsUtf8(b[taken..]);
      var t := DecodeUtf8(b).value;
      assert t[0] == DecodeOne(b).value.s && t[1..] == DecodeUtf8(b[taken..]).value;
      assert b == b[..taken] + b[taken..];
    }
  }

  // ---------------------------------------------------------------- percent-encoding

  predicate Unreserved(x: int) {
    0x41 <= x <= 0x5A || 0x61 <= x <= 0x7A || 0x30 <= x <= 0x39 || x in {0x2D, 0x2E, 0x5F, 0x7E}
  }

  function HexDigit(n: int): Scalar
    requires 0 <= n < 16
  {
    if n < 10 then 0x30 + n else 0x41 + n - 10
  }

  function HexValue(c: int): Option<int> {
    if 0x30 <= c <= 0x39 then Some(c - 0x30)
    else if 0x41 <= c <= 0x46 then Some(c - 0x41 + 10)
    else if 0x61 <= c <= 0x66 then Some(c - 0x61 + 10)
    else None
  }

  function QuoteBytes(b: seq<Byte>): Text {
    if b == [] then []
    else (if Unreserved(b[0]) then [b[0]] else [PERCENT, HexDigit(b[0] / 16), HexDigit(b[0] % 16)]) + QuoteBytes(b[1..])
  }

  /** One path segment as the client writes it. */
  function Quote(segment: Text): Text { QuoteBytes(Utf8(segment)) }

  predicate Ascii(t: Text) { forall i | 0 <= i < |t| :: t[i] < 0x80 }

  predicate Escape(t: Text) {
    |t| >= 3 && t[0] == PERCENT && HexValue(t[1]).Some? && HexValue(t[2]).Some?
  }

  /** The bytes an ASCII string stands for; a percent sign without two hexadecimal digits stands for itself. */
  function UnquoteBytes(t: Text): seq<Byte>
    requires Ascii(t)
  {
    if t == [] then []
    else if Escape(t) then [HexValue(t[1]).value * 16 + HexValue(t[2]).value] + UnquoteBytes(t[3..])
    else [t[0]] + UnquoteBytes(t[1..])
  }

  function AsciiRun(t: Text): (n: nat)
    ensures n <= |t| && Ascii(t[..n])
    ensures n < |t| ==> t[n] >= 0x80
  {
    if t == [] || t[0] >= 0x80 then 0
    else
      var n := 1 + AsciiRun(t[1..]);
      assert forall i | 0 < i < n :: t[..n][i] == t[1..][..n - 1][i - 1];
      n
  }

  /** Each run of ASCII characters is unquoted and decoded on its own; others stand for themselves. */
  function Unquote(t: Text): Option<Text> {
    if t == [] then Some([])
    else if t[0] >= 0x80 then
      match Unquote(t[1..])
      case None => None
      case Some(rest) => Some([t[0]] + rest)
    else
      var n := AsciiRun(t);
      match (DecodeUtf8(UnquoteBytes(t[..n])), Unquote(t[n..]))
      case (Some(run), Some(rest)) => Some(run + rest)
      case _ => None
  }

  lemma {:induction false} QuoteIsSafe(b: seq<Byte>)
    ensures forall i | 0 <= i < |QuoteBytes(b)| :: Unreserved(QuoteBytes(b)[i]) || QuoteBytes(b)[i] == PERCENT
    ensures b != [] ==> QuoteBytes(b) != []
  {
    if b != [] { QuoteIsSafe(b[1..]); }
  }

  /** A byte as itself, if it has no meaning in a path, or by its two hexadecimal digits in either case. */
  predicate SpellsByte(e: Text, b: Byte) {
    || (e == [b] && b < 0x80 && b !in {SLASH, QUESTION, PERCENT})
    || (|e| == 3 && e[0] == PERCENT && HexValue(e[1]) == Some(b / 16) && HexValue(e[2]) == Some(b % 16))
  }

  lemma UnquoteOne(e: Text, b: Byte, rest: Text)
    requires SpellsByte(e, b) && Ascii(rest)
    ensures Ascii(e + rest) && SLASH !in e && QUESTION !in e && e != []
    ensures UnquoteBytes(e + rest) == [b] + UnquoteBytes(rest)
  {
    assert (e + rest)[|e|..] == rest;
  }

  lemma NothingUnquoted()
    ensures UnquoteBytes([]) == []
  {
  }

  lemma HexRoundTrip(x: Byte)
    ensures HexValue(HexDigit(x / 16)) == Some(x / 16) && HexValue(HexDigit(x % 16)) == Some(x % 16)
    ensures x / 16 * 16 + x % 16 == x
  {
  }

  lemma QuoteSpells(b: Byte)
    ensures SpellsByte(if Unreserved(b) then [b] else [PERCENT, HexDigit(b / 16), HexDigit(b % 16)], b)
  {
    HexRoundTrip(b);
  }

  lemma {:induction false} UnquoteQuoted(b: seq<Byte>)
    ensures Ascii(QuoteBytes(b)) && UnquoteBytes(QuoteBytes(b)) == b
  {
    hide HexDigit, HexValue, UnquoteBytes, Unreserved, SpellsByte;
    if b == [] {
      NothingUnquoted();
    } else {
      UnquoteQuoted(b[1..]);
      var e := if Unreserved(b[0]) then [b[0]] else [PERCENT, HexDigit(b[0] / 16), HexDigit(b[0] % 16)];
      QuoteSpells(b[0]);
      UnquoteOne(e, b[0], QuoteBytes(b[1..]));
      assert b == [b[0]] + b[1..];
    }
  }

  lemma QuotedIsEmptyIff(segment: Text)
    ensures Quote(segment) == [] <==> segment == []
  {
    hide Unreserved, HexDigit;
  }

  /** What needs no quoting is letters, digits, and the marks hyphen, period, underscore and tilde (section 2.3 of RFC 3986). */
  predicate NeedsNoQuoting(t: Text) {
    forall x | x in t ::
      0x41 <= x <= 0x5A || 0x61 <= x <= 0x7A || 0x30 <= x <= 0x39 || x == 0x2D || x == 0x2E || x == 0x5F || x == 0x7E
  }

  lemma {:induction false} PlainIsQuotedAsItself(t: Text)
    requires NeedsNoQuoting(t)
    ensures Quote(t) == t
  {
    if t != [] {
      assert forall x | x in t[1..] :: x in t;
      PlainIsQuotedAsItself(t[1..]);
      assert t[0] in t && Utf8One(t[0]) == [t[0]];
      assert Utf8(t)[0] == t[0] && Utf8(t)[1..] == Utf8(t[1..]);
      assert [t[0]] + t[1..] == t;
    }
  }

  lemma {:induction false} OnlyPlainAndPercent(b: seq<Byte>)
    ensures forall x | x in QuoteBytes(b) :: x == 0x25 || NeedsNoQuoting([x])
  {
    if b != [] { OnlyPlainAndPercent(b[1..]); }
  }

  /** Reading a quoted segment gives the segment back. */
  lemma QuoteRoundTrip(segment: Text)
    ensures Unquote(Quote(segment)) == Some(segment)
    ensures SLASH !in Quote(segment) && QUESTION !in Quote(segment)
    ensures segment != [] ==> Quote(segment) != []
    ensures forall x | x in Quote(segment) :: x == 0x25 || NeedsNoQuoting([x])
  {
    OnlyPlainAndPercent(Utf8(segment));
    hide Utf8, QuoteBytes, DecodeUtf8, UnquoteBytes;
    var q := Quote(segment);
    QuotedIsEmptyIff(segment);
    QuoteIsSafe(Utf8(segment));
    UnquoteQuoted(Utf8(segment));
    Utf8RoundTrip(segment);
    if q != [] {
      var n := AsciiRun(q);
      assert n == |q|;
      assert q[..n] == q && q[n..] == [];
      assert Unquote(q[n..]) == Some([]);
      assert segment + [] == segment;
    }
  }

  // ---------------------------------------------------------------- paths

  function Split(t: Text): (r: seq<Text>)
    ensures r != []
  {
    if t == [] then [[]]
    else if t[0] == SLASH then [[]] + Split(t[1..])
    else
      var rest := Split(t[1..]);
      [[t[0]] + rest[0]] + rest[1..]
  }

  function Join(segments: seq<Text>): Text
    requires segments != []
  {
    if |segments| == 1 then segments[0] else segments[0] + [SLASH] + Join(segments[1..])
  }

  lemma {:induction false} JoinSplit(t: Text)
    ensures Join(Split(t)) == t
    ensures forall i | 0 <= i < |Split(t)| :: SLASH !in Split(t)[i]
  {
    if t != [] {
      JoinSplit(t[1..]);
      var rest := Split(t[1..]);
      if t[0] == SLASH {
        assert Split(t)[1..] == rest;
      } else if |rest| == 1 {
        assert Join(Split(t)) == [t[0]] + rest[0];
      } else {
        assert Split(t)[1..] == rest[1..];
      }
    }
  }

  lemma {:induction false} SplitOne(segment: Text, rest: Text)
    requires SLASH !in segment
    ensures Split(segment + [SLASH] + rest) == [segment] + Split(rest)
    ensures Split(segment) == [segment]
  {
    var t := segment + [SLASH] + rest;
    if segment == [] {
      assert t[1..] == rest;
    } else {
      SplitOne(segment[1..], rest);
      assert t[1..] == segment[1..] + [SLASH] + rest;
      assert [segment[0]] + segment[1..] == segment;
    }
  }

  lemma {:induction false} SplitJoin(segments: seq<Text>)
    requires segments != [] && forall i | 0 <= i < |segments| :: SLASH !in segments[i]
    ensures Split(Join(segments)) == segments
  {
    if |segments| == 1 {
      SplitOne(segments[0], []);
    } else {
      SplitJoin(segments[1..]);
      SplitOne(segments[0], Join(segments[1..]));
    }
  }

  /** The components posixpath.normpath keeps of a relative path. */
  function NormalComponents(comps: seq<Text>, kept: seq<Text>): seq<Text>
    decreases |comps|
  {
    if comps == [] then kept
    else
      var c := comps[0];
      if c == [] || c == DOT then NormalComponents(comps[1..], kept)
      else if c != DOTDOT || kept == [] || kept[|kept| - 1] == DOTDOT then NormalComponents(comps[1..], kept + [c])
      else NormalComponents(comps[1..], kept[..|kept| - 1])
  }

  function NormPath(path: Text): Text {
    var kept := NormalComponents(Split(path), []);
    if kept == [] then DOT else Join(kept)
  }

  predicate Letter(x: int) { 0x41 <= x <= 0x5A || 0x61 <= x <= 0x7A }

  predicate BadSegment(s: Text) { s == [] || s == DOT || s == DOTDOT }

  /** What a manifest may name. */
  predicate ValidManifestPath(path: Text) {
    && path != [] && |path| <= 1024
    && 0 !in path
    && (forall i | 0 <= i < |path| :: !(path[i] < 0x20 || path[i] == 0x7F))
    && BACKSLASH !in path
    && path[0] != SLASH && !(|path| >= 2 && Letter(path[0]) && path[1] == 0x3A)
    && NormPath(path) == path
    && path != DOT && path != DOTDOT
    && |Split(path)| <= 64
    && (forall i | 0 <= i < |Split(path)| :: !BadSegment(Split(path)[i]))
    && Split(path)[0] !in RESERVED
  }

  function QuoteAll(segments: seq<Text>): (r: seq<Text>)
    ensures |r| == |segments| && forall i | 0 <= i < |r| :: r[i] == Quote(segments[i])
  {
    if segments == [] then [] else [Quote(segments[0])] + QuoteAll(segments[1..])
  }

  /** The path as the client puts it into a URL. */
  function Encoded(path: Text): Text { Join(QuoteAll(Split(path))) }

  // ---------------------------------------------------------------- the server's reading

  function BeforeQuestion(t: Text): Text {
    if t == [] || t[0] == QUESTION then [] else [t[0]] + BeforeQuestion(t[1..])
  }

  /** The segments, each unquoted, none empty, a dot, or holding a slash or NUL. */
  function DecodeSegments(segments: seq<Text>): Option<seq<Text>> {
    if segments == [] then Some([])
    else
      match Unquote(segments[0])
      case None => None
      case Some(out) =>
        if BadSegment(out) || 0 in out || SLASH in out then None
        else
          match DecodeSegments(segments[1..])
          case None => None
          case Some(rest) => Some([out] + rest)
  }

  datatype Target = Target(path: Text, trailing: bool)

  predicate Trailing(path: Text) { |path| > 1 && path[|path| - 1] == SLASH }

  /** The segments of a request path, without what is before the first slash or after a trailing one. */
  function Segments(path: Text): seq<Text> {
    var all := Split(path)[1..];
    if Trailing(path) && all != [] then all[..|all| - 1] else all
  }

  function Assembled(decoded: seq<Text>, trailing: bool): Option<Target> {
    var joined := if decoded == [] then [] else Join(decoded);
    if joined != [] && (BACKSLASH in joined || |joined| > 1024 || |decoded| > 64) then None
    else Some(Target(joined, trailing))
  }

  /** The decoded path and whether it had a trailing slash; None is an invalid path. */
  function DecodeContentPath(raw: Text): Option<Target> {
    var path := BeforeQuestion(raw);
    if path == [SLASH] then Some(Target([], false))
    else
      match DecodeSegments(Segments(path))
      case None => None
      case Some(decoded) => Assembled(decoded, Trailing(path))
  }

  /** What a request can name. */
  predicate Servable(path: Text) {
    && |path| <= 1024 && |Split(path)| <= 64 && 0 !in path && BACKSLASH !in path
    && forall i | 0 <= i < |Split(path)| :: !BadSegment(Split(path)[i])
  }

  /** Texts that are unquoted to segments. */
  ghost predicate Spell(texts: seq<Text>, segments: seq<Text>) {
    && |texts| == |segments|
    && forall i | 0 <= i < |texts| :: Unquote(texts[i]) == Some(segments[i]) && texts[i] != [] && SLASH !in texts[i] && QUESTION !in texts[i]
  }

  lemma {:induction false} DecodeAll(texts: seq<Text>, segments: seq<Text>)
    requires Spell(texts, segments)
    requires forall i | 0 <= i < |segments| :: !BadSegment(segments[i]) && 0 !in segments[i] && SLASH !in segments[i]
    ensures DecodeSegments(texts) == Some(segments)
  {
    hide Unquote;
    if segments != [] {
      DecodeAll(texts[1..], segments[1..]);
      assert [segments[0]] + segments[1..] == segments;
    } else {
      assert segments == [];
    }
  }

  lemma {:induction false} NoQuestion(t: Text)
    requires QUESTION !in t
    ensures BeforeQuestion(t) == t
  {
    if t != [] { NoQuestion(t[1..]); }
  }

  lemma {:induction false} JoinKeeps(segments: seq<Text>, x: Scalar)
    requires segments != []
    ensures x in Join(segments) ==> x == SLASH || exists i :: 0 <= i < |segments| && x in segments[i]
    ensures forall i | 0 <= i < |segments| && x in segments[i] :: x in Join(segments)
    ensures segments[|segments| - 1] != [] ==>
              Join(segments) != [] && Join(segments)[|Join(segments)| - 1] == segments[|segments| - 1][|segments[|segments| - 1]| - 1]
  {
    if |segments| > 1 {
      JoinKeeps(segments[1..], x);
      if x in Join(segments) && x != SLASH && x !in segments[0] {
        assert x in Join(segments[1..]);
        var i :| 0 <= i < |segments[1..]| && x in segments[1..][i];
        assert x in segments[i + 1];
      }
      forall i | 0 <= i < |segments| && x in segments[i] ensures x in Join(segments) {
        if i > 0 { assert x in segments[1..][i - 1]; }
      }
    }
  }

  lemma SegmentsAreClean(path: Text)
    requires Servable(path)
    ensures forall i | 0 <= i < |Split(path)| :: 0 !in Split(path)[i] && SLASH !in Split(path)[i]
  {
    JoinSplit(path);
    JoinKeeps(Split(path), 0);
  }

  lemma {:induction false} CutAtQuestion(t: Text, query: Text)
    requires QUESTION !in t && (query == [] || query[0] == QUESTION)
    ensures BeforeQuestion(t + query) == t
  {
    if t == [] {
      assert t + query == query;
    } else {
      CutAtQuestion(t[1..], query);
      assert (t + query)[1..] == t[1..] + query;
    }
  }

  function SlashIf(slash: bool): Text { if slash then [SLASH] else [] }

  lemma LastOfJoined(texts: seq<Text>)
    requires texts != [] && texts[|texts| - 1] != [] && SLASH !in texts[|texts| - 1]
    ensures Join(texts) != [] && Join(texts)[|Join(texts)| - 1] != SLASH
  {
    var last := texts[|texts| - 1];
    JoinKeeps(texts, 0);
    assert last[|last| - 1] in last;
  }

  lemma SplitAfterSlash(tail: Text)
    ensures Split([SLASH] + tail)[1..] == Split(tail)
  {
    assert ([SLASH] + tail)[1..] == tail;
  }

  lemma OpenPath(joined: Text, texts: seq<Text>)
    requires Split(joined) == texts && joined != [] && joined[|joined| - 1] != SLASH
    ensures !Trailing([SLASH] + joined) && Segments([SLASH] + joined) == texts
  {
    hide Split;
    SplitAfterSlash(joined);
  }

  lemma ClosedPath(joined: Text, texts: seq<Text>)
    requires Split(joined + [SLASH]) == texts + [[]] && joined != []
    ensures Trailing([SLASH] + (joined + [SLASH])) && Segments([SLASH] + (joined + [SLASH])) == texts
  {
    hide Split;
    SplitAfterSlash(joined + [SLASH]);
    assert (texts + [[]])[..|texts|] == texts;
  }

  /** A slash, a joined list of clean texts, and maybe a slash, is taken apart into exactly those texts. */
  lemma CleanIsTakenApart(texts: seq<Text>, slash: bool)
    requires texts != []
    requires forall i | 0 <= i < |texts| :: SLASH !in texts[i] && QUESTION !in texts[i] && texts[i] != []
    ensures var raw := [SLASH] + Join(texts) + SlashIf(slash);
            QUESTION !in raw && raw != [SLASH] && (Trailing(raw) <==> slash) && Segments(raw) == texts
  {
    hide Join, Split, Segments, Trailing;
    var joined := Join(texts);
    JoinKeeps(texts, QUESTION);
    SplitJoin(texts);
    LastOfJoined(texts);
    if slash {
      assert [SLASH] + joined + SlashIf(slash) == [SLASH] + (joined + [SLASH]);
      SlashAtEnd(texts);
      ClosedPath(joined, texts);
    } else {
      assert [SLASH] + joined + SlashIf(slash) == [SLASH] + joined;
      OpenPath(joined, texts);
    }
  }

  lemma {:induction false} SlashAtEnd(texts: seq<Text>)
    requires texts != [] && forall i | 0 <= i < |texts| :: SLASH !in texts[i]
    ensures Split(Join(texts) + [SLASH]) == texts + [[]]
  {
    if |texts| == 1 {
      SplitOne(texts[0], []);
      assert texts[0] + [SLASH] + [] == Join(texts) + [SLASH];
      assert [texts[0]] + [[]] == texts + [[]];
    } else {
      SlashAtEnd(texts[1..]);
      SplitOne(texts[0], Join(texts[1..]) + [SLASH]);
      assert texts[0] + [SLASH] + (Join(texts[1..]) + [SLASH]) == Join(texts) + [SLASH];
      assert [texts[0]] + (texts[1..] + [[]]) == texts + [[]];
    }
  }

  /** A path whose segments are written in some way, a slash or none, and a query or none. */
  lemma PathIsDecoded(path: Text, texts: seq<Text>, slash: bool, query: Text)
    requires Servable(path) && Spell(texts, Split(path)) && (query == [] || query[0] == QUESTION)
    ensures DecodeContentPath([SLASH] + Join(texts) + SlashIf(slash) + query) == Some(Target(path, slash))
  {
    hide Unquote, Segments, Trailing;
    SegmentsAreClean(path);
    CleanIsTakenApart(texts, slash);
    CutAtQuestion([SLASH] + Join(texts) + SlashIf(slash), query);
    DecodeAll(texts, Split(path));
    JoinSplit(path);
  }

  /** Every path a request can name survives the client's encoding and the server's decoding. It is taken for a
      directory exactly if a slash follows, and what comes after a question mark does not matter. */
  lemma EncodedIsDecoded(path: Text, slash: bool, query: Text)
    requires Servable(path) && (query == [] || query[0] == QUESTION)
    ensures DecodeContentPath([SLASH] + Encoded(path) + SlashIf(slash) + query) == Some(Target(path, slash))
  {
    hide Unquote, Quote;
    forall i | 0 <= i < |Split(path)| ensures Unquote(QuoteAll(Split(path))[i]) == Some(Split(path)[i]) {
      QuoteRoundTrip(Split(path)[i]);
    }
    forall i | 0 <= i < |Split(path)|
      ensures QuoteAll(Split(path))[i] != [] && SLASH !in QuoteAll(Split(path))[i] && QUESTION !in QuoteAll(Split(path))[i]
    {
      QuoteRoundTrip(Split(path)[i]);
    }
    PathIsDecoded(path, QuoteAll(Split(path)), slash, query);
  }

  /** A lone slash names the root, which is no directory of the payload. */
  lemma RootIsDecoded(query: Text)
    requires query == [] || query[0] == QUESTION
    ensures DecodeContentPath([SLASH] + query) == Some(Target([], false))
  {
    CutAtQuestion([SLASH], query);
  }

  /** In particular every path a manifest may name. */
  lemma ManifestPathIsServable(path: Text)
    requires ValidManifestPath(path)
    ensures Servable(path) && path != [] && DecodeContentPath([SLASH] + Encoded(path)) == Some(Target(path, false))
  {
    hide DecodeContentPath, Encoded;
    EncodedIsDecoded(path, false, []);
    assert [SLASH] + Encoded(path) + SlashIf(false) + [] == [SLASH] + Encoded(path);
  }

  lemma {:induction false} CleanIsNormal(comps: seq<Text>, kept: seq<Text>)
    requires forall i | 0 <= i < |comps| :: !BadSegment(comps[i])
    ensures NormalComponents(comps, kept) == kept + comps
    decreases |comps|
  {
    if comps != [] {
      CleanIsNormal(comps[1..], kept + [comps[0]]);
      assert kept + [comps[0]] + comps[1..] == kept + comps;
    }
  }

  /** What a manifest may name: up to 1024 characters in up to 64 segments, none of them empty, a dot or two dots, the
      first neither "api" nor "__manure"; no control characters, no backslash, and no drive letter in front. Such a path
      is normal already. */
  lemma ManifestPathIff(path: Text)
    ensures ValidManifestPath(path) <==>
              && 1 <= |path| <= 1024 && (forall x | x in path :: x >= 0x20 && x != 0x7F && x != 0x5C)
              && !(|path| >= 2 && (0x41 <= path[0] <= 0x5A || 0x61 <= path[0] <= 0x7A) && path[1] == 0x3A)
              && |Split(path)| <= 64
              && (forall segment | segment in Split(path) :: segment != [] && segment != [0x2E] && segment != [0x2E, 0x2E])
              && Split(path)[0] != [0x61, 0x70, 0x69] && Split(path)[0] != [0x5F, 0x5F, 0x6D, 0x61, 0x6E, 0x75, 0x72, 0x65]
  {
    hide Split, Join;
    var segments := Split(path);
    if ValidManifestPath(path) {
      forall segment | segment in segments ensures !BadSegment(segment) {
        var i :| 0 <= i < |segments| && segments[i] == segment;
      }
    }
    if forall segment | segment in segments :: segment != [] && segment != [0x2E] && segment != [0x2E, 0x2E] {
      forall i | 0 <= i < |segments| ensures !BadSegment(segments[i]) { assert segments[i] in segments; }
      CleanIsNormal(segments, []);
      assert [] + segments == segments;
      JoinSplit(path);
      if path != [] && path[0] == SLASH { FirstIsNotSlash(path); }
      assert segments[0] in segments;
      DotsAreBad(path);
      assert NormPath(path) == path;
    }
    Printable(path);
  }

  lemma Printable(path: Text)
    ensures (forall x | x in path :: x >= 0x20 && x != 0x7F && x != 0x5C) <==>
              0 !in path && BACKSLASH !in path && forall i | 0 <= i < |path| :: !(path[i] < 0x20 || path[i] == 0x7F)
  {
    if forall x | x in path :: x >= 0x20 && x != 0x7F && x != 0x5C {
      forall i | 0 <= i < |path| ensures !(path[i] < 0x20 || path[i] == 0x7F) { assert path[i] in path; }
    }
  }

  lemma FirstIsNotSlash(path: Text)
    requires path != [] && path[0] == SLASH
    ensures Split(path)[0] == []
  {
  }

  lemma DotsAreBad(path: Text)
    ensures path == DOT || path == DOTDOT ==> Split(path) == [path]
  {
    if path == DOT || path == DOTDOT { SplitOne(path, []); }
  }

  predicate SpelledBytes(spelling: seq<Text>, bytes: seq<Byte>) {
    |spelling| == |bytes| && forall i | 0 <= i < |bytes| :: SpellsByte(spelling[i], bytes[i])
  }

  function Flat(parts: seq<Text>): Text { if parts == [] then [] else parts[0] + Flat(parts[1..]) }

  lemma {:induction false} UnquoteSpelled(spelling: seq<Text>, bytes: seq<Byte>)
    requires SpelledBytes(spelling, bytes)
    ensures var t := Flat(spelling);
            Ascii(t) && UnquoteBytes(t) == bytes && SLASH !in t && QUESTION !in t && (bytes != [] ==> t != [])
  {
    hide SpellsByte, UnquoteBytes;
    if bytes == [] {
      NothingUnquoted();
    } else {
      UnquoteSpelled(spelling[1..], bytes[1..]);
      UnquoteOne(spelling[0], bytes[0], Flat(spelling[1..]));
      assert bytes == [bytes[0]] + bytes[1..];
    }
  }

  /** A segment in any spelling of its bytes is read back. */
  lemma SpelledIsUnquoted(spelling: seq<Text>, segment: Text)
    requires segment != [] && SpelledBytes(spelling, Utf8(segment))
    ensures var t := Flat(spelling); Unquote(t) == Some(segment) && t != [] && SLASH !in t && QUESTION !in t
  {
    hide SpelledBytes, Flat, UnquoteBytes, DecodeUtf8;
    var t := Flat(spelling);
    UnquoteSpelled(spelling, Utf8(segment));
    Utf8RoundTrip(segment);
    var n := AsciiRun(t);
    assert n == |t|;
    assert t[..n] == t && t[n..] == [];
    assert Unquote(t[n..]) == Some([]);
    assert segment + [] == segment;
  }

  /** However a client spells the bytes of a path, the server reads the same path. */
  lemma SpelledIsDecoded(path: Text, spellings: seq<seq<Text>>, slash: bool, query: Text)
    requires Servable(path) && (query == [] || query[0] == QUESTION) && |spellings| == |Split(path)|
    requires forall i | 0 <= i < |spellings| :: SpelledBytes(spellings[i], Utf8(Split(path)[i]))
    ensures DecodeContentPath([SLASH] + Join(Flats(spellings)) + SlashIf(slash) + query) == Some(Target(path, slash))
  {
    hide Unquote, SpelledBytes, Flat;
    forall i | 0 <= i < |spellings|
      ensures var t := Flats(spellings)[i]; Unquote(t) == Some(Split(path)[i]) && t != [] && SLASH !in t && QUESTION !in t
    {
      SpelledIsUnquoted(spellings[i], Split(path)[i]);
    }
    PathIsDecoded(path, Flats(spellings), slash, query);
  }

  function Flats(spellings: seq<seq<Text>>): seq<Text> {
    seq(|spellings|, i requires 0 <= i < |spellings| => Flat(spellings[i]))
  }

  lemma {:induction false} DecodedAreSafe(segments: seq<Text>)
    requires DecodeSegments(segments).Some?
    ensures var d := DecodeSegments(segments).value;
            |d| == |segments| && forall i | 0 <= i < |d| :: !BadSegment(d[i]) && 0 !in d[i] && SLASH !in d[i]
  {
    if segments != [] { DecodedAreSafe(segments[1..]); }
  }

  lemma AssembledIsServable(decoded: seq<Text>, trailing: bool)
    requires forall i | 0 <= i < |decoded| :: !BadSegment(decoded[i]) && 0 !in decoded[i] && SLASH !in decoded[i]
    requires Assembled(decoded, trailing).Some?
    ensures Assembled(decoded, trailing).value.path == [] || Servable(Assembled(decoded, trailing).value.path)
  {
    if decoded != [] {
      SplitJoin(decoded);
      JoinKeeps(decoded, 0);
    }
  }

  /** And nothing else is ever decoded: no dot segment, no smuggled slash, no backslash, whatever the request. */
  lemma DecodedIsServable(raw: Text)
    requires DecodeContentPath(raw).Some?
    ensures DecodeContentPath(raw).value.path == [] || Servable(DecodeContentPath(raw).value.path)
  {
    var path := BeforeQuestion(raw);
    if path != [SLASH] {
      DecodedAreSafe(Segments(path));
      AssembledIsServable(DecodeSegments(Segments(path)).value, Trailing(path));
    }
  }
}
